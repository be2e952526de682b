// The pipe network of day 12: processes named by pid, each listing the pids
// it talks to; a group is everything reachable from one pid.
module Pipes {
  import opened Common
  import opened Text

  /** One record: the pid and the pids it is connected to. */
  datatype Process = Process(pid: string, conns: seq<string>)

  type Table = map<string, Process>

  /** The zero Process that Go's map lookup gives for a pid without a record. */
  const NoProcess := Process("", [])

  /** pm.processes[pid]: the record, or the zero Process. */
  function Lookup(procs: Table, pid: string): Process
  {
    if pid in procs then procs[pid] else NoProcess
  }

  /** Every record is stored under its own pid, and no pid is empty. */
  predicate WellFormed(procs: Table)
  {
    forall k :: k in procs ==> procs[k].pid == k && k != ""
  }

  /**
   * The pid a lookup of x visits: x itself when it has a record, else the
   * zero Process's empty pid.
   */
  function Node(procs: Table, x: string): string
  {
    if x in procs then x else ""
  }

  /** The pids a walk can visit: those with records and the empty one. */
  ghost function Nodes(procs: Table): set<string>
  {
    procs.Keys + {""}
  }

  /** A walk steps from a to b when one of a's connections leads to b. */
  predicate Edge(procs: Table, a: string, b: string)
  {
    exists i :: 0 <= i < |Lookup(procs, a).conns| && Node(procs, Lookup(procs, a).conns[i]) == b
  }

  /** xs is a walk along edges that never enters avoid. */
  ghost predicate IsPath(procs: Table, avoid: set<string>, xs: seq<string>)
  {
    |xs| >= 1
    && (forall i :: 0 <= i < |xs| ==> xs[i] !in avoid)
    && (forall i :: 0 <= i < |xs| - 1 ==> Edge(procs, xs[i], xs[i + 1]))
  }

  ghost predicate Reaches(procs: Table, avoid: set<string>, a: string, b: string)
  {
    exists xs :: IsPath(procs, avoid, xs) && xs[0] == a && xs[|xs| - 1] == b
  }

  /** The pids reachable from a without entering avoid (none when a is in avoid). */
  ghost function ReachSet(procs: Table, avoid: set<string>, a: string): set<string>
  {
    set b | b in Nodes(procs) && Reaches(procs, avoid, a, b)
  }

  // ---------------------------------------------------------------------------
  // Walks

  lemma EdgeStaysInNodes(procs: Table, a: string, b: string)
    requires Edge(procs, a, b)
    ensures b in Nodes(procs)
  {
  }

  lemma ReachesSelf(procs: Table, avoid: set<string>, a: string)
    requires a !in avoid
    ensures Reaches(procs, avoid, a, a)
  {
    assert IsPath(procs, avoid, [a]);
  }

  lemma ReachesStep(procs: Table, avoid: set<string>, a: string, c: string, b: string)
    requires a !in avoid && Edge(procs, a, c) && Reaches(procs, avoid, c, b)
    ensures Reaches(procs, avoid, a, b)
  {
    var xs :| IsPath(procs, avoid, xs) && xs[0] == c && xs[|xs| - 1] == b;
    var ys := [a] + xs;
    assert forall i :: 0 <= i < |xs| ==> ys[i + 1] == xs[i];
    assert IsPath(procs, avoid, ys);
  }

  lemma ReachesTrans(procs: Table, avoid: set<string>, a: string, m: string, b: string)
    requires Reaches(procs, avoid, a, m) && Reaches(procs, avoid, m, b)
    ensures Reaches(procs, avoid, a, b)
  {
    var xs :| IsPath(procs, avoid, xs) && xs[0] == a && xs[|xs| - 1] == m;
    var ys :| IsPath(procs, avoid, ys) && ys[0] == m && ys[|ys| - 1] == b;
    var zs := xs + ys[1..];
    assert forall i :: |xs| <= i < |zs| ==> zs[i] == ys[i - |xs| + 1];
    assert IsPath(procs, avoid, zs);
  }

  lemma ReachesAvoidingLess(procs: Table, small: set<string>, big: set<string>, a: string, b: string)
    requires small <= big && Reaches(procs, big, a, b)
    ensures Reaches(procs, small, a, b)
  {
    var xs :| IsPath(procs, big, xs) && xs[0] == a && xs[|xs| - 1] == b;
    assert IsPath(procs, small, xs);
  }

  lemma ReachesFromNodes(procs: Table, avoid: set<string>, a: string, b: string)
    requires a in Nodes(procs) && Reaches(procs, avoid, a, b)
    ensures b in Nodes(procs) && b in ReachSet(procs, avoid, a)
  {
    var xs :| IsPath(procs, avoid, xs) && xs[0] == a && xs[|xs| - 1] == b;
    if |xs| > 1 {
      EdgeStaysInNodes(procs, xs[|xs| - 2], b);
    }
  }

  lemma InReachSet(procs: Table, avoid: set<string>, a: string, b: string)
    requires b in Nodes(procs) && Reaches(procs, avoid, a, b)
    ensures b in ReachSet(procs, avoid, a)
  {
  }

  /** Whatever is reached from a avoiding A is reached through a first connection, avoiding a too. */
  lemma ReachesFirstStep(procs: Table, avoid: set<string>, a: string, b: string)
    requires Reaches(procs, avoid, a, b) && b != a
    ensures exists i :: (0 <= i < |Lookup(procs, a).conns|
                         && Reaches(procs, avoid + {a}, Node(procs, Lookup(procs, a).conns[i]), b))
  {
    var xs :| IsPath(procs, avoid, xs) && xs[0] == a && xs[|xs| - 1] == b;
    var k := LastIndexOf(xs, a);
    assert k < |xs| - 1;
    assert Edge(procs, xs[k], xs[k + 1]);
    var i :| 0 <= i < |Lookup(procs, a).conns| && Node(procs, Lookup(procs, a).conns[i]) == xs[k + 1];
    var ys := xs[k + 1..];
    assert forall j :: 0 <= j < |ys| ==> ys[j] == xs[k + 1 + j];
    assert IsPath(procs, avoid + {a}, ys);
  }

  /** The last position of a in xs, which begins with a. */
  lemma LastIndexOf(xs: seq<string>, a: string) returns (k: int)
    requires |xs| >= 1 && xs[0] == a
    ensures 0 <= k < |xs| && xs[k] == a
    ensures forall j :: k < j < |xs| ==> xs[j] != a
  {
    k := |xs| - 1;
    while xs[k] != a
      invariant 0 <= k < |xs|
      invariant forall j :: k < j < |xs| ==> xs[j] != a
      decreases k
    {
      k := k - 1;
    }
  }

  /**
   * Walks from y avoiding A either stay out of B, or enter B where B is
   * already closed under walks avoiding A.
   */
  lemma ReachAbsorbed(procs: Table, A: set<string>, B: set<string>, y: string)
    requires A <= B
    requires forall z :: z in B - A ==> ReachSet(procs, A, z) <= B
    ensures B + ReachSet(procs, B, y) == B + ReachSet(procs, A, y)
  {
    forall b | b in ReachSet(procs, B, y)
      ensures b in ReachSet(procs, A, y)
    {
      ReachesAvoidingLess(procs, A, B, y, b);
    }
    forall b | b in ReachSet(procs, A, y) && b !in B
      ensures b in ReachSet(procs, B, y)
    {
      var xs :| IsPath(procs, A, xs) && xs[0] == y && xs[|xs| - 1] == b;
      if k :| 0 <= k < |xs| && xs[k] in B {
        var ys := xs[k..];
        assert forall j :: 0 <= j < |ys| ==> ys[j] == xs[k + j];
        assert IsPath(procs, A, ys);
        InReachSet(procs, A, xs[k], b);
        assert false;
      }
      assert IsPath(procs, B, xs);
    }
  }

  // ---------------------------------------------------------------------------
  // What one walk from a record collects

  /** Everything reachable, avoiding A, from the pids the connections cs lead to. */
  ghost function ReachAll(procs: Table, A: set<string>, cs: seq<string>): set<string>
  {
    if cs == [] then {}
    else ReachAll(procs, A, cs[..|cs| - 1]) + ReachSet(procs, A, Node(procs, cs[|cs| - 1]))
  }

  lemma {:induction false} ReachAllHas(procs: Table, A: set<string>, cs: seq<string>, j: int)
    requires 0 <= j < |cs|
    ensures ReachSet(procs, A, Node(procs, cs[j])) <= ReachAll(procs, A, cs)
  {
    if j < |cs| - 1 {
      assert cs[..|cs| - 1][j] == cs[j];
      ReachAllHas(procs, A, cs[..|cs| - 1], j);
    }
  }

  lemma {:induction false} ReachAllIsSome(procs: Table, A: set<string>, cs: seq<string>, z: string)
    requires z in ReachAll(procs, A, cs)
    ensures exists j :: 0 <= j < |cs| && z in ReachSet(procs, A, Node(procs, cs[j]))
  {
    var last := |cs| - 1;
    if z !in ReachSet(procs, A, Node(procs, cs[last])) {
      ReachAllIsSome(procs, A, cs[..last], z);
      var j :| 0 <= j < last && z in ReachSet(procs, A, Node(procs, cs[..last][j]));
      assert cs[..last][j] == cs[j];
    }
  }

  /** ReachAll is closed: from any pid in it, walks avoiding A stay in it. */
  lemma ReachAllClosed(procs: Table, A: set<string>, cs: seq<string>, z: string)
    requires z in ReachAll(procs, A, cs)
    ensures ReachSet(procs, A, z) <= ReachAll(procs, A, cs)
  {
    ReachAllIsSome(procs, A, cs, z);
    var j :| 0 <= j < |cs| && z in ReachSet(procs, A, Node(procs, cs[j]));
    forall b | b in ReachSet(procs, A, z)
      ensures b in ReachSet(procs, A, Node(procs, cs[j]))
    {
      ReachesTrans(procs, A, Node(procs, cs[j]), z, b);
    }
    ReachAllHas(procs, A, cs, j);
  }

  /**
   * A walk from n avoiding seen is n itself or a walk from one of n's
   * connections avoiding seen and n.
   */
  lemma ReachUnfolds(procs: Table, seen: set<string>, n: string)
    requires n in Nodes(procs) && n !in seen
    ensures seen + ReachSet(procs, seen, n)
         == seen + {n} + ReachAll(procs, seen + {n}, Lookup(procs, n).conns)
  {
    var cs := Lookup(procs, n).conns;
    ReachesSelf(procs, seen, n);
    forall b | b in ReachSet(procs, seen, n) && b != n
      ensures b in ReachAll(procs, seen + {n}, cs)
    {
      ReachesFirstStep(procs, seen, n, b);
      var i :| 0 <= i < |cs| && Reaches(procs, seen + {n}, Node(procs, cs[i]), b);
      ReachAllHas(procs, seen + {n}, cs, i);
    }
    forall b | b in ReachAll(procs, seen + {n}, cs)
      ensures b in ReachSet(procs, seen, n)
    {
      ReachAllIsSome(procs, seen + {n}, cs, b);
      var j :| 0 <= j < |cs| && b in ReachSet(procs, seen + {n}, Node(procs, cs[j]));
      ReachesAvoidingLess(procs, seen, seen + {n}, Node(procs, cs[j]), b);
      assert Edge(procs, n, Node(procs, cs[j]));
      ReachesStep(procs, seen, n, Node(procs, cs[j]), b);
    }
  }

  lemma ReachSetAvoids(procs: Table, avoid: set<string>, a: string)
    ensures ReachSet(procs, avoid, a) * avoid == {}
  {
    forall b | b in ReachSet(procs, avoid, a) ensures b !in avoid {
      var xs :| IsPath(procs, avoid, xs) && xs[0] == a && xs[|xs| - 1] == b;
    }
  }

  lemma SubsetFewer<T>(a: set<T>, b: set<T>)
    requires a <= b
    ensures |a| <= |b|
  {
    assert b == a + (b - a);
  }

  /** Marking n and then more leaves fewer unmarked elements of N. */
  lemma FewerLeft<T>(N: set<T>, seen: set<T>, n: T, s: set<T>)
    requires n in N && n !in seen && seen + {n} <= s
    ensures |N - s| < |N - seen|
  {
    SubsetFewer(N - s, N - (seen + {n}));
    assert N - seen == N - (seen + {n}) + {n};
  }

  /** Adding elements not yet in s adds their number to what s holds beyond seen. */
  lemma CountGrows<T>(seen: set<T>, s: set<T>, R: set<T>)
    requires seen <= s && R * s == {}
    ensures |(s + R) - seen| == |s - seen| + |R|
  {
    assert (s + R) - seen == (s - seen) + R;
  }

  /** One walk step: the connections cs[..i + 1] after cs[..i]. */
  lemma WalkStep(procs: Table, S0: set<string>, cs: seq<string>, i: int, s: set<string>)
    requires 0 <= i < |cs| && s == S0 + ReachAll(procs, S0, cs[..i])
    ensures s + ReachSet(procs, s, Node(procs, cs[i])) == S0 + ReachAll(procs, S0, cs[..i + 1])
  {
    forall z | z in s - S0
      ensures ReachSet(procs, S0, z) <= s
    {
      ReachAllClosed(procs, S0, cs[..i], z);
    }
    ReachAbsorbed(procs, S0, s, Node(procs, cs[i]));
    assert cs[..i + 1][..i] == cs[..i];
  }

  lemma NothingFromAvoided(procs: Table, avoid: set<string>, a: string)
    requires a in avoid
    ensures ReachSet(procs, avoid, a) == {}
  {
  }

  /** The record a connection x leads to, and why the walk from it terminates. */
  lemma ConnIsNode(procs: Table, seen: set<string>, n: string, s: set<string>, x: string)
    requires WellFormed(procs) && n in Nodes(procs) && n !in seen && seen + {n} <= s
    ensures Lookup(procs, x).pid == Node(procs, x) && Node(procs, x) in Nodes(procs)
    ensures Lookup(procs, x) == Lookup(procs, Lookup(procs, x).pid)
    ensures |Nodes(procs) - s| < |Nodes(procs) - seen|
  {
    FewerLeft(Nodes(procs), seen, n, s);
  }

  /**
   * The walk from n has marked n and everything the first i connections of
   * n reach, and counted each once.
   */
  ghost predicate Walked(procs: Table, seen: set<string>, n: string, i: int, s: set<string>, count: int)
  {
    && 0 <= i <= |Lookup(procs, n).conns|
    && s == seen + {n} + ReachAll(procs, seen + {n}, Lookup(procs, n).conns[..i])
    && count == |s - seen|
  }

  /** After the walk from connection i: the set and the count both grow by what it reached. */
  lemma AfterConn(procs: Table, seen: set<string>, n: string, i: int, s: set<string>, count: int,
                  s': set<string>, c: int)
    requires Walked(procs, seen, n, i, s, count) && i < |Lookup(procs, n).conns|
    requires WellFormed(procs)
    requires s' == s + ReachSet(procs, s, Lookup(procs, Lookup(procs, n).conns[i]).pid)
    requires c == |ReachSet(procs, s, Lookup(procs, Lookup(procs, n).conns[i]).pid)|
    ensures Walked(procs, seen, n, i + 1, s', count + c)
  {
    var cs := Lookup(procs, n).conns;
    var R := ReachSet(procs, s, Node(procs, cs[i]));
    WalkStep(procs, seen + {n}, cs, i, s);
    ReachSetAvoids(procs, s, Node(procs, cs[i]));
    CountGrows(seen, s, R);
  }

  /** After the walks from all connections: everything reachable from n. */
  lemma AfterConns(procs: Table, seen: set<string>, n: string, s: set<string>, count: int)
    requires n in Nodes(procs) && n !in seen
    requires Walked(procs, seen, n, |Lookup(procs, n).conns|, s, count)
    ensures s == seen + ReachSet(procs, seen, n) && count == |ReachSet(procs, seen, n)|
  {
    var cs := Lookup(procs, n).conns;
    assert cs[..|cs|] == cs;
    ReachUnfolds(procs, seen, n);
    ReachSetAvoids(procs, seen, n);
    assert s - seen == ReachSet(procs, seen, n);
  }

  // ---------------------------------------------------------------------------
  // Groups, for tables whose connections all have records and go both ways

  /** The group of x: everything reachable from x. */
  ghost function Group(procs: Table, x: string): set<string>
  {
    ReachSet(procs, {}, x)
  }

  /** Every connection names a pid that has a record. */
  ghost predicate Closed(procs: Table)
  {
    forall k, i :: k in procs && 0 <= i < |procs[k].conns| ==> procs[k].conns[i] in procs
  }

  /** Every connection is listed by both ends. */
  ghost predicate Symmetric(procs: Table)
  {
    forall a, b :: a in procs && b in procs && Edge(procs, a, b) ==> Edge(procs, b, a)
  }

  /** The distinct groups of the pids with records. */
  ghost function Components(procs: Table): set<set<string>>
  {
    set x | x in procs :: Group(procs, x)
  }

  ghost function GroupsIn(procs: Table, pids: set<string>): set<set<string>>
  {
    set x | x in pids :: Group(procs, x)
  }

  lemma {:induction false} PathStaysInRecords(procs: Table, avoid: set<string>, xs: seq<string>, j: int)
    requires WellFormed(procs) && Closed(procs)
    requires IsPath(procs, avoid, xs) && xs[0] in procs && 0 <= j < |xs|
    ensures xs[j] in procs
  {
    if j > 0 {
      PathStaysInRecords(procs, avoid, xs, j - 1);
      assert Edge(procs, xs[j - 1], xs[j]);
    }
  }

  lemma GroupHasRecords(procs: Table, x: string)
    requires WellFormed(procs) && Closed(procs) && x in procs
    ensures x in Group(procs, x) && Group(procs, x) <= procs.Keys
  {
    ReachesSelf(procs, {}, x);
    forall b | b in Group(procs, x) ensures b in procs {
      var xs :| IsPath(procs, {}, xs) && xs[0] == x && xs[|xs| - 1] == b;
      PathStaysInRecords(procs, {}, xs, |xs| - 1);
    }
  }

  /** Walking a path backwards, one reversed edge at a time. */
  lemma {:induction false} ReachesBackAlong(procs: Table, xs: seq<string>, j: int)
    requires WellFormed(procs) && Closed(procs) && Symmetric(procs)
    requires IsPath(procs, {}, xs) && xs[0] in procs && 0 <= j < |xs|
    ensures Reaches(procs, {}, xs[j], xs[0])
  {
    if j == 0 {
      ReachesSelf(procs, {}, xs[0]);
    } else {
      ReachesBackAlong(procs, xs, j - 1);
      PathStaysInRecords(procs, {}, xs, j - 1);
      PathStaysInRecords(procs, {}, xs, j);
      assert Edge(procs, xs[j - 1], xs[j]);
      ReachesStep(procs, {}, xs[j], xs[j - 1], xs[0]);
    }
  }

  lemma ReachesBack(procs: Table, a: string, b: string)
    requires WellFormed(procs) && Closed(procs) && Symmetric(procs)
    requires a in procs && Reaches(procs, {}, a, b)
    ensures Reaches(procs, {}, b, a)
  {
    var xs :| IsPath(procs, {}, xs) && xs[0] == a && xs[|xs| - 1] == b;
    ReachesBackAlong(procs, xs, |xs| - 1);
  }

  /** Any member of a group has that same group. */
  lemma SameGroup(procs: Table, x: string, y: string)
    requires WellFormed(procs) && Closed(procs) && Symmetric(procs)
    requires x in procs && y in Group(procs, x)
    ensures Group(procs, y) == Group(procs, x)
  {
    ReachesBack(procs, x, y);
    forall b | b in Group(procs, y) ensures b in Group(procs, x) {
      ReachesTrans(procs, {}, x, y, b);
    }
    forall b | b in Group(procs, x) ensures b in Group(procs, y) {
      ReachesTrans(procs, {}, y, x, b);
    }
  }

  /** Taking a whole group out of a union of groups leaves the other groups. */
  lemma RemoveGroup(procs: Table, remaining: set<string>, pid: string)
    requires WellFormed(procs) && Closed(procs) && Symmetric(procs)
    requires remaining <= procs.Keys && pid in remaining
    requires forall x :: x in remaining ==> Group(procs, x) <= remaining
    ensures var rest := remaining - Group(procs, pid);
      && (forall x :: x in rest ==> Group(procs, x) <= rest)
      && GroupsIn(procs, rest) == GroupsIn(procs, remaining) - {Group(procs, pid)}
      && Group(procs, pid) in GroupsIn(procs, remaining)
  {
    var G := Group(procs, pid);
    var rest := remaining - G;
    forall x | x in rest ensures Group(procs, x) <= rest {
      forall y | y in Group(procs, x) ensures y !in G {
        if y in G {
          SameGroup(procs, x, y);
          SameGroup(procs, pid, y);
          GroupHasRecords(procs, x);
          assert false;
        }
      }
    }
    forall x | x in rest ensures Group(procs, x) != G {
      GroupHasRecords(procs, x);
    }
    forall x | x in remaining && Group(procs, x) != G ensures x in rest {
      if x in G {
        SameGroup(procs, pid, x);
      }
    }
  }

  /**
   * What countGroups keeps: the pids remaining are whole groups, and count
   * is the number of groups already taken out.
   */
  ghost predicate GroupsLeft(procs: Table, remaining: set<string>, count: int)
  {
    && (forall x :: x in remaining ==> Group(procs, x) <= remaining)
    && GroupsIn(procs, remaining) <= Components(procs)
    && count == |Components(procs) - GroupsIn(procs, remaining)|
  }

  lemma AllGroupsLeft(procs: Table)
    requires WellFormed(procs) && Closed(procs)
    ensures GroupsLeft(procs, procs.Keys, 0)
  {
    forall x | x in procs.Keys ensures Group(procs, x) <= procs.Keys {
      GroupHasRecords(procs, x);
    }
    assert GroupsIn(procs, procs.Keys) == Components(procs);
  }

  lemma GroupsLeftStep(procs: Table, remaining: set<string>, pid: string, count: int, seen: set<string>)
    requires WellFormed(procs) && Closed(procs) && Symmetric(procs)
    requires remaining <= procs.Keys && pid in remaining && GroupsLeft(procs, remaining, count)
    requires seen == Group(procs, pid)
    ensures GroupsLeft(procs, remaining - seen, count + 1)
  {
    RemoveGroup(procs, remaining, pid);
    var rest := remaining - seen;
    assert Components(procs) - GroupsIn(procs, rest)
        == Components(procs) - GroupsIn(procs, remaining) + {Group(procs, pid)};
  }

  /** A set of pids that no edge leaves holds everything reachable from its members. */
  lemma ReachInside(procs: Table, avoid: set<string>, S: set<string>, a: string)
    requires a in S
    requires forall x, b :: x in S && Edge(procs, x, b) ==> b in S
    ensures ReachSet(procs, avoid, a) <= S
  {
    forall b | b in ReachSet(procs, avoid, a) ensures b in S {
      var xs :| IsPath(procs, avoid, xs) && xs[0] == a && xs[|xs| - 1] == b;
      PathInside(procs, avoid, S, xs, |xs| - 1);
    }
  }

  lemma {:induction false} PathInside(procs: Table, avoid: set<string>, S: set<string>, xs: seq<string>, j: int)
    requires IsPath(procs, avoid, xs) && xs[0] in S && 0 <= j < |xs|
    requires forall x, b :: x in S && Edge(procs, x, b) ==> b in S
    ensures xs[j] in S
  {
    if j > 0 {
      PathInside(procs, avoid, S, xs, j - 1);
      assert Edge(procs, xs[j - 1], xs[j]);
    }
  }

  /** Each record is listed back by every record it lists. */
  predicate ListsBack(procs: Table)
  {
    forall a, c :: a in procs && c in procs[a].conns && c in procs ==> a in procs[c].conns
  }

  /** Listing back, for records that only name records, makes every connection two-way. */
  lemma ListsBackSymmetric(procs: Table)
    requires WellFormed(procs) && Closed(procs) && ListsBack(procs)
    ensures Symmetric(procs)
  {
    forall a, b | a in procs && b in procs && Edge(procs, a, b) ensures Edge(procs, b, a) {
      var i :| 0 <= i < |procs[a].conns| && Node(procs, procs[a].conns[i]) == b;
      assert procs[a].conns[i] in procs[a].conns;
      assert a in procs[b].conns;
      var j :| 0 <= j < |procs[b].conns| && procs[b].conns[j] == a;
      assert Node(procs, Lookup(procs, b).conns[j]) == a;
    }
  }

  /** Closed, stated over the members of each connection list. */
  lemma ClosedByMembers(procs: Table)
    requires forall k, c :: k in procs && c in procs[k].conns ==> c in procs
    ensures Closed(procs)
  {
    forall k, i | k in procs && 0 <= i < |procs[k].conns| ensures procs[k].conns[i] in procs {
      assert procs[k].conns[i] in procs[k].conns;
    }
  }

  /** In a closed table, a set holding every connection of its records is left by no edge. */
  lemma EdgesWithin(procs: Table, S: set<string>)
    requires Closed(procs)
    requires forall x, c :: x in S && x in procs && c in procs[x].conns ==> c in S
    ensures forall x, b :: x in S && Edge(procs, x, b) ==> b in S
  {
    forall x, b | x in S && Edge(procs, x, b) ensures b in S {
      var i :| 0 <= i < |Lookup(procs, x).conns| && Node(procs, Lookup(procs, x).conns[i]) == b;
      assert x in procs;
      assert procs[x].conns[i] in procs[x].conns;
    }
  }

  /** One connection is a one-step path. */
  lemma Hop(procs: Table, a: string, i: int)
    requires a in procs && 0 <= i < |procs[a].conns| && procs[a].conns[i] in procs
    ensures Reaches(procs, {}, a, procs[a].conns[i])
  {
    var b := procs[a].conns[i];
    assert Edge(procs, a, b) by {
      assert Node(procs, Lookup(procs, a).conns[i]) == b;
    }
    ReachesSelf(procs, {}, b);
    ReachesStep(procs, {}, a, b, b);
  }

  /** One round of countGroups keeps its loop invariant. */
  lemma CountGroupsStep(procs: Table, before: set<string>, pid: string, count: nat, seen: set<string>)
    requires WellFormed(procs)
    requires before <= procs.Keys && pid in before && count + |before| <= |procs.Keys|
    requires seen == ReachSet(procs, {}, pid)
    requires Closed(procs) && Symmetric(procs) ==> GroupsLeft(procs, before, count)
    ensures before - seen <= procs.Keys
    ensures count + 1 + |before - seen| <= |procs.Keys| && |before - seen| < |before|
    ensures Closed(procs) && Symmetric(procs) ==> GroupsLeft(procs, before - seen, count + 1)
  {
    ReachesSelf(procs, {}, pid);
    assert pid in seen;
    SubsetFewer(before - seen, before - {pid});
    if Closed(procs) && Symmetric(procs) {
      GroupsLeftStep(procs, before, pid, count, seen);
    }
  }

  // ---------------------------------------------------------------------------
  // Counting. These read pm.processes and change nothing of the mapper, so
  // they take the table as a parameter.

  /**
   * recursiveCountPidGroup: nothing for a pid already seen; otherwise the
   * pid is marked and counted, and so is everything its connections reach.
   * seen is the set the Go code mutates through a pointer.
   */
  method RecursiveCountPidGroup(procs: Table, seen: set<string>, process: Process)
    returns (count: nat, seen': set<string>)
    requires WellFormed(procs)
    requires process.pid in Nodes(procs) && process == Lookup(procs, process.pid)
    ensures seen' == seen + ReachSet(procs, seen, process.pid)
    ensures count == |ReachSet(procs, seen, process.pid)|
    decreases |Nodes(procs) - seen|, 1
  {
    if process.pid in seen {
      NothingFromAvoided(procs, seen, process.pid);
      return 0, seen;
    }
    count, seen' := CountConnections(procs, seen, process);
  }

  /** The marking of a pid not yet seen and the loop over its connections. */
  method CountConnections(procs: Table, seen: set<string>, process: Process)
    returns (count: nat, seen': set<string>)
    requires WellFormed(procs)
    requires process.pid in Nodes(procs) && process == Lookup(procs, process.pid)
    requires process.pid !in seen
    ensures seen' == seen + ReachSet(procs, seen, process.pid)
    ensures count == |ReachSet(procs, seen, process.pid)|
    decreases |Nodes(procs) - seen|, 0
  {
    var n := process.pid;
    count := 1;
    var s := seen + {n};
    for i := 0 to |process.conns|
      invariant Walked(procs, seen, n, i, s, count)
    {
      var other := Lookup(procs, process.conns[i]);
      ConnIsNode(procs, seen, n, s, process.conns[i]);
      var c, s' := RecursiveCountPidGroup(procs, s, other);
      AfterConn(procs, seen, n, i, s, count, s', c);
      count := count + c;
      s := s';
    }
    AfterConns(procs, seen, n, s, count);
    seen' := s;
  }

  /** countPidGroup: the size of pid's group. */
  method CountPidGroup(procs: Table, pid: string) returns (count: nat)
    requires WellFormed(procs)
    ensures count == |ReachSet(procs, {}, Node(procs, pid))|
    ensures pid in procs ==> count >= 1
  {
    var root := Lookup(procs, pid);
    var seen;
    count, seen := RecursiveCountPidGroup(procs, {}, root);
    if pid in procs {
      ReachesSelf(procs, {}, pid);
      assert pid in ReachSet(procs, {}, pid);
    }
  }

  /**
   * countGroups: take any pid still remaining, walk its group, remove what
   * the walk saw, and count one group.
   */
  method CountGroups(procs: Table) returns (count: nat)
    requires WellFormed(procs)
    ensures count <= |procs|
    ensures count == 0 <==> procs == map[]
    ensures Closed(procs) && Symmetric(procs) ==> count == |Components(procs)|
  {
    var remaining := procs.Keys;
    count := 0;
    if Closed(procs) && Symmetric(procs) {
      AllGroupsLeft(procs);
    }
    while remaining != {}
      invariant remaining <= procs.Keys
      invariant count + |remaining| <= |procs.Keys|
      invariant count == 0 ==> remaining == procs.Keys
      invariant Closed(procs) && Symmetric(procs) ==> GroupsLeft(procs, remaining, count)
      decreases |remaining|
    {
      var pid :| pid in remaining;
      var root := procs[pid];
      var c, seen := RecursiveCountPidGroup(procs, {}, root);
      CountGroupsStep(procs, remaining, pid, count, seen);
      remaining := RemoveAll(remaining, seen);
      count := count + 1;
    }
    if Closed(procs) && Symmetric(procs) {
      assert GroupsIn(procs, remaining) == {};
    }
  }

  /** The loop `for pid := range seen.Iter() { remaining.Remove(pid) }`. */
  method RemoveAll<T>(remaining: set<T>, seen: set<T>) returns (r: set<T>)
    ensures r == remaining - seen
  {
    r := remaining;
    var rest := seen;
    while rest != {}
      invariant rest <= seen
      invariant r == remaining - (seen - rest)
      decreases |rest|
    {
      var x :| x in rest;
      r := r - {x};
      rest := rest - {x};
    }
  }

  // ---------------------------------------------------------------------------
  // Reading records: the regexp `(\d+) <-> (.*)`, then the split of the second
  // capture on `\s*,\s*`.

  const Arrow := " <-> "

  /** `.*`: the text up to the first newline, which `.` does not match. */
  function UpToNewline(s: string): (r: string)
    ensures r <= s && '\n' !in r
    ensures |r| < |s| ==> s[|r|] == '\n'
  {
    if s == [] || s[0] == '\n' then [] else [s[0]] + UpToNewline(s[1..])
  }

  /**
   * The record pattern matches with its digit run starting at index i. The
   * run must be maximal: a shorter one is followed by a digit, not a space.
   */
  predicate RecordAt(s: string, i: nat)
  {
    MatchesAt(s, i, "", Digits, Arrow)
  }

  /** The two captures of the match at i. */
  function RecordCaptures(s: string, i: nat): (r: (string, string))
    requires RecordAt(s, i)
    ensures |r.0| > 0 && forall k :: 0 <= k < |r.0| ==> IsDigit(r.0[k])
    ensures '\n' !in r.1
  {
    var n := RunLength(s[i..], Digits);
    (s[i..i + n], UpToNewline(s[i + n + |Arrow|..]))
  }

  /** regexp.FindStringSubmatch: the captures of the leftmost match at or after from. */
  function FindRecord(s: string, from: nat): (r: Option<(string, string)>)
    ensures r.Some? ==> |r.value.0| > 0 && forall k :: 0 <= k < |r.value.0| ==> IsDigit(r.value.0[k])
    decreases |s| - from
  {
    if from >= |s| then None
    else if RecordAt(s, from) then Some(RecordCaptures(s, from))
    else FindRecord(s, from + 1)
  }

  /** FindRecord finds nothing exactly when the pattern matches nowhere from `from` on. */
  lemma {:induction false} FindRecordNone(s: string, from: nat)
    ensures FindRecord(s, from).None? <==> forall i :: from <= i < |s| ==> !RecordAt(s, i)
    decreases |s| - from
  {
    if from < |s| {
      FindRecordNone(s, from + 1);
    }
  }

  /** FindRecord reports the captures of the leftmost match. */
  lemma {:induction false} FindRecordLeftmost(s: string, from: nat, i: nat)
    requires from <= i && RecordAt(s, i)
    requires forall j :: from <= j < i ==> !RecordAt(s, j)
    ensures FindRecord(s, from) == Some(RecordCaptures(s, i))
    decreases i - from
  {
    if from < i {
      assert !RecordAt(s, from);
      FindRecordLeftmost(s, from + 1, i);
    } else {
      assert from < |s|;
    }
  }

  /** Drops the `\s*` run at the start. */
  function TrimLeft(s: string): (r: string)
    ensures |r| <= |s| && r == s[|s| - |r|..]
    ensures forall k :: 0 <= k < |s| - |r| ==> IsRegexSpace(s[k])
    ensures r == [] || !IsRegexSpace(r[0])
  {
    if s != [] && IsRegexSpace(s[0]) then TrimLeft(s[1..]) else s
  }

  /** Drops the `\s*` run at the end. */
  function TrimRight(s: string): (r: string)
    ensures |r| <= |s| && r == s[..|r|]
    ensures forall k :: |r| <= k < |s| ==> IsRegexSpace(s[k])
    ensures r == [] || !IsRegexSpace(r[|r| - 1])
  {
    if s != [] && IsRegexSpace(s[|s| - 1]) then TrimRight(s[..|s| - 1]) else s
  }

  /**
   * The i-th of n comma-separated parts once the separators `\s*,\s*` are
   * taken out: the spaces before a comma go with the comma that follows the
   * part, those after it with the comma before the part.
   */
  function Piece(part: string, i: nat, n: nat): string
  {
    var right := if i + 1 < n then TrimRight(part) else part;
    if i > 0 then TrimLeft(right) else right
  }

  /** pidSeparatorRe.Split(s, -1). */
  function SplitConns(s: string): (r: seq<string>)
    ensures |r| == |Split(s, ',')| && |r| >= 1
    ensures forall i :: 0 <= i < |r| ==> ',' !in r[i]
  {
    var parts := Split(s, ',');
    seq(|parts|, i requires 0 <= i < |parts| => Piece(parts[i], i, |parts|))
  }

  /** parseRecord's reading of one line, or None where Go's match is nil. */
  function RecordOf(record: string): (r: Option<Process>)
    ensures r.Some? ==> |r.value.pid| > 0 && forall k :: 0 <= k < |r.value.pid| ==> IsDigit(r.value.pid[k])
  {
    match FindRecord(record, 0)
    case None => None
    case Some((pid, rest)) => Some(Process(pid, SplitConns(rest)))
  }

  /** parseRecord finds a record exactly when the pattern matches somewhere in the line. */
  lemma RecordOfSome(record: string)
    ensures RecordOf(record).Some? <==> exists i :: 0 <= i < |record| && RecordAt(record, i)
  {
    FindRecordNone(record, 0);
  }

  // Writing records back, in the puzzle's own format.

  /** A connection as the input writes it: no comma, no newline, no spaces around it. */
  predicate Clean(c: string)
  {
    ',' !in c && '\n' !in c && (c == [] || (!IsRegexSpace(c[0]) && !IsRegexSpace(c[|c| - 1])))
  }

  /** A process the input's format can write: a digit pid and at least one clean connection. */
  predicate Readable(p: Process)
  {
    && |p.pid| > 0 && (forall k :: 0 <= k < |p.pid| ==> IsDigit(p.pid[k]))
    && |p.conns| >= 1 && (forall k :: 0 <= k < |p.conns| ==> Clean(p.conns[k]))
  }

  function Spaced(conns: seq<string>): (r: seq<string>)
    ensures |r| == |conns|
  {
    seq(|conns|, i requires 0 <= i < |conns| => if i == 0 then conns[0] else " " + conns[i])
  }

  /** `pid <-> c1, c2, ...` */
  function RenderRecord(p: Process): string
    requires |p.conns| >= 1
  {
    p.pid + Arrow + Join(Spaced(p.conns), ',')
  }

  lemma {:induction false} NotInJoin(parts: seq<string>, sep: char, c: char)
    requires |parts| >= 1 && c != sep
    requires forall i :: 0 <= i < |parts| ==> c !in parts[i]
    ensures c !in Join(parts, sep)
  {
    if |parts| > 1 {
      NotInJoin(parts[1..], sep, c);
      assert forall i :: 0 <= i < |parts| - 1 ==> parts[1..][i] == parts[i + 1];
    }
  }

  lemma WholeLine(s: string)
    requires '\n' !in s
    ensures UpToNewline(s) == s
  {
  }

  lemma TrimLeftSpaced(c: string)
    requires c == [] || !IsRegexSpace(c[0])
    ensures TrimLeft(" " + c) == c
  {
    assert (" " + c)[1..] == c;
  }

  lemma TrimRightClean(c: string)
    requires c == [] || !IsRegexSpace(c[|c| - 1])
    ensures TrimRight(c) == c
  {
  }

  lemma CleanPiece(conns: seq<string>, i: nat)
    requires 0 <= i < |conns| && forall k :: 0 <= k < |conns| ==> Clean(conns[k])
    ensures Piece(Spaced(conns)[i], i, |conns|) == conns[i]
  {
    var c := conns[i];
    assert Clean(c);
    if i > 0 {
      if c == [] {
        assert TrimRight(" ") == [];
        assert TrimLeft(" ") == [];
      } else {
        assert (" " + c)[|" " + c| - 1] == c[|c| - 1];
        TrimRightClean(" " + c);
        TrimLeftSpaced(c);
      }
    } else {
      TrimRightClean(c);
    }
  }

  /** The record line of any process written in the input's format reads back as that process. */
  /** The pattern matches a rendered line at its start, capturing the pid and the rest. */
  lemma MatchOfRender(pid: string, body: string)
    requires |pid| > 0 && forall k :: 0 <= k < |pid| ==> IsDigit(pid[k])
    requires '\n' !in body
    ensures var s := pid + Arrow + body;
      RecordAt(s, 0) && RecordCaptures(s, 0) == (pid, body)
  {
    var s := pid + Arrow + body;
    assert s == pid + (Arrow + body);
    assert s[0..] == s;
    RunLengthOf(pid, Arrow + body, Digits);
    assert s[|pid|..] == Arrow + body;
    assert HasPrefix(s[0..], "");
    assert s[0..|pid|] == pid;
    assert s[|pid| + |Arrow|..] == body;
    WholeLine(body);
  }

  /** The connections written with ", " between them split back into themselves. */
  lemma SplitConnsOfSpaced(conns: seq<string>)
    requires |conns| >= 1 && forall k :: 0 <= k < |conns| ==> Clean(conns[k])
    ensures '\n' !in Join(Spaced(conns), ',')
    ensures SplitConns(Join(Spaced(conns), ',')) == conns
  {
    var parts := Spaced(conns);
    forall k | 0 <= k < |parts| ensures ',' !in parts[k] && '\n' !in parts[k] {
      assert Clean(conns[k]);
      if k > 0 {
        assert parts[k] == " " + conns[k];
      }
    }
    NotInJoin(parts, ',', '\n');
    SplitJoin(parts, ',');
    forall i | 0 <= i < |conns| ensures SplitConns(Join(parts, ','))[i] == conns[i] {
      CleanPiece(conns, i);
    }
  }

  /** The record line of any process written in the input's format reads back as that process. */
  lemma RecordOfRender(p: Process)
    requires Readable(p)
    ensures RecordOf(RenderRecord(p)) == Some(p)
  {
    var body := Join(Spaced(p.conns), ',');
    SplitConnsOfSpaced(p.conns);
    MatchOfRender(p.pid, body);
    FindRecordLeftmost(RenderRecord(p), 0, 0);
  }

  // Storing records.

  /** Every non-empty line is one Go's pattern matches (otherwise parseRecord panics). */
  predicate Parsable(lines: seq<string>)
  {
    forall k :: 0 <= k < |lines| && lines[k] != "" ==> RecordOf(lines[k]).Some?
  }

  /** The table after parseRecord of each non-empty line, in order. */
  function StoreLines(procs: Table, lines: seq<string>): Table
    requires Parsable(lines)
  {
    if lines == [] then procs
    else
      var before := StoreLines(procs, lines[..|lines| - 1]);
      var line := lines[|lines| - 1];
      if line == "" then before else before[RecordOf(line).value.pid := RecordOf(line).value]
  }

  /** Storing records keeps every record under its own, non-empty pid. */
  lemma {:induction false} StoreLinesWellFormed(procs: Table, lines: seq<string>)
    requires WellFormed(procs) && Parsable(lines)
    ensures WellFormed(StoreLines(procs, lines))
  {
    if lines != [] {
      StoreLinesWellFormed(procs, lines[..|lines| - 1]);
    }
  }

  /** The last record given for a pid is the one kept. */
  lemma {:induction false} StoreLinesLastWins(procs: Table, lines: seq<string>, j: nat)
    requires Parsable(lines) && j < |lines| && lines[j] != ""
    requires forall k :: j < k < |lines| && lines[k] != "" ==> RecordOf(lines[k]).value.pid != RecordOf(lines[j]).value.pid
    ensures var p := RecordOf(lines[j]).value;
      p.pid in StoreLines(procs, lines) && StoreLines(procs, lines)[p.pid] == p
  {
    if j < |lines| - 1 {
      StoreLinesLastWins(procs, lines[..|lines| - 1], j);
    }
  }

  /** A pid no line names keeps whatever it had before. */
  lemma {:induction false} StoreLinesUntouched(procs: Table, lines: seq<string>, pid: string)
    requires Parsable(lines)
    requires forall k :: 0 <= k < |lines| && lines[k] != "" ==> RecordOf(lines[k]).value.pid != pid
    ensures pid in StoreLines(procs, lines) <==> pid in procs
    ensures pid in procs ==> StoreLines(procs, lines)[pid] == procs[pid]
  {
    if lines != [] {
      StoreLinesUntouched(procs, lines[..|lines| - 1], pid);
    }
  }

  /** Rendered records, one per line and then an empty line, parse back record by record. */
  lemma RenderedLines(ps: seq<Process>, lines: seq<string>)
    requires |lines| == |ps| + 1 && lines[|ps|] == ""
    requires forall k :: 0 <= k < |ps| ==> Readable(ps[k]) && lines[k] == RenderRecord(ps[k])
    ensures Parsable(lines)
    ensures forall k :: 0 <= k < |ps| ==> RecordOf(lines[k]) == Some(ps[k])
  {
    forall k | 0 <= k < |ps| ensures RecordOf(lines[k]) == Some(ps[k]) {
      RecordOfRender(ps[k]);
    }
  }

  /** Rendered records with distinct pids, stored into an empty table, give exactly those records. */
  lemma StoreRendered(ps: seq<Process>, lines: seq<string>)
    requires |lines| == |ps| + 1 && lines[|ps|] == ""
    requires forall k :: 0 <= k < |ps| ==> Readable(ps[k]) && lines[k] == RenderRecord(ps[k])
    requires forall i, j :: 0 <= i < j < |ps| ==> ps[i].pid != ps[j].pid
    ensures Parsable(lines)
    ensures forall k :: 0 <= k < |ps| ==> ps[k].pid in StoreLines(map[], lines) && StoreLines(map[], lines)[ps[k].pid] == ps[k]
    ensures forall pid :: pid in StoreLines(map[], lines) ==> exists k :: 0 <= k < |ps| && ps[k].pid == pid
  {
    RenderedLines(ps, lines);
    forall k | 0 <= k < |ps| ensures ps[k].pid in StoreLines(map[], lines) && StoreLines(map[], lines)[ps[k].pid] == ps[k] {
      RenderedStored(ps, lines, k);
    }
    forall pid | pid in StoreLines(map[], lines) ensures exists k :: 0 <= k < |ps| && ps[k].pid == pid {
      RenderedOnly(ps, lines, pid);
    }
  }

  lemma RenderedOnly(ps: seq<Process>, lines: seq<string>, pid: string)
    requires |lines| == |ps| + 1 && lines[|ps|] == ""
    requires Parsable(lines) && forall i :: 0 <= i < |ps| ==> RecordOf(lines[i]) == Some(ps[i])
    requires pid in StoreLines(map[], lines)
    ensures exists k :: 0 <= k < |ps| && ps[k].pid == pid
  {
    if forall k :: 0 <= k < |ps| ==> ps[k].pid != pid {
      forall m | 0 <= m < |lines| && lines[m] != "" ensures RecordOf(lines[m]).value.pid != pid {
        assert m != |ps|;
        assert RecordOf(lines[m]) == Some(ps[m]);
      }
      StoreLinesUntouched(map[], lines, pid);
    }
  }

  lemma RenderedStored(ps: seq<Process>, lines: seq<string>, k: int)
    requires |lines| == |ps| + 1 && lines[|ps|] == "" && 0 <= k < |ps|
    requires forall i, j :: 0 <= i < j < |ps| ==> ps[i].pid != ps[j].pid
    requires Parsable(lines) && forall i :: 0 <= i < |ps| ==> RecordOf(lines[i]) == Some(ps[i])
    ensures ps[k].pid in StoreLines(map[], lines) && StoreLines(map[], lines)[ps[k].pid] == ps[k]
  {
    forall m | k < m < |lines| && lines[m] != ""
      ensures RecordOf(lines[m]).value.pid != RecordOf(lines[k]).value.pid
    {
      assert m != |ps|;
      assert RecordOf(lines[m]) == Some(ps[m]);
    }
    StoreLinesLastWins(map[], lines, k);
  }

  // ---------------------------------------------------------------------------
  // The mapper itself: the table that parseRecord and parseRecords fill in.

  class PipeMapper {
    var processes: Table

    /** NewPipeMapper: an empty table. */
    constructor ()
      ensures processes == map[]
    {
      processes := map[];
    }

    predicate Valid()
      reads this
    {
      WellFormed(processes)
    }

    /** parseRecord: the record replaces whatever was stored under its pid. */
    method ParseRecord(record: string)
      requires RecordOf(record).Some?
      modifies this
      ensures processes == old(processes)[RecordOf(record).value.pid := RecordOf(record).value]
      ensures old(Valid()) ==> Valid()
    {
      var process := RecordOf(record).value;
      processes := processes[process.pid := process];
    }

    /** parseRecords: parseRecord on every non-empty line. */
    method ParseRecords(records: string)
      requires Parsable(Split(records, '\n'))
      modifies this
      ensures processes == StoreLines(old(processes), Split(records, '\n'))
      ensures old(Valid()) ==> Valid()
    {
      var lines := Split(records, '\n');
      for i := 0 to |lines|
        invariant Parsable(lines[..i])
        invariant processes == StoreLines(old(processes), lines[..i])
      {
        assert lines[..i + 1][..i] == lines[..i];
        if |lines[i]| == 0 {
          continue;
        }
        ParseRecord(lines[i]);
      }
      assert lines[..|lines|] == lines;
      if old(Valid()) {
        StoreLinesWellFormed(old(processes), lines);
      }
    }
  }
}
