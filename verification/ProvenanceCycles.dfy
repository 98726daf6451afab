/** What phase 2 of the provenance walk gives on provenance that may hold cycles: a message that
    reaches no cycle is drained with its exact mass, every other one is a leftover
    (rrc/provenance.go). */
module ProvenanceCycles {
  import opened Provenance
  import opened ProvenanceMass
  import opened ProvenanceKahn
  import opened Sorting

  // ----- Cycles -----

  /** `v` contributed to the kept message `u`. */
  ghost predicate Leads(g: Graph, anchors: set<string>, targets: seq<string>, v: string, u: string) {
    u in targets && u !in anchors && exists k: nat :: Exists(g, Step(u, k)) && Taken(g, Step(u, k)).from == v
  }

  lemma LeadsIsStep(g: Graph, anchors: set<string>, targets: seq<string>, v: string, u: string)
    ensures Leads(g, anchors, targets, v, u) <==>
                exists s :: s in StepsFrom(g, targets, v) && s.to == u && u !in anchors
  {
    if Leads(g, anchors, targets, v, u) {
      var k: nat :| Exists(g, Step(u, k)) && Taken(g, Step(u, k)).from == v;
      assert Step(u, k) in StepsFrom(g, targets, v);
    }
    if s :| s in StepsFrom(g, targets, v) && s.to == u && u !in anchors {
      assert s == Step(u, s.k);
    }
  }

  ghost predicate Path(g: Graph, anchors: set<string>, targets: seq<string>, p: seq<string>) {
    && p != []
    && (forall i, j {:trigger Leads(g, anchors, targets, p[i], p[j])} ::
          0 <= i && j == i + 1 && j < |p| ==> Leads(g, anchors, targets, p[i], p[j]))
  }

  /** Following contributions upward from `x` through kept messages meets some message twice. */
  ghost predicate ReachesCycle(g: Graph, anchors: set<string>, targets: seq<string>, x: string) {
    exists p, i, j :: Path(g, anchors, targets, p) && p[0] == x && 0 <= i < j < |p| && p[i] == p[j]
  }

  /** Place of the first occurrence counted from 1; 0 for none. */
  ghost function First(order: seq<string>, x: string): (n: nat)
    ensures n <= |order| && (n == 0 <==> x !in order)
    ensures n > 0 ==> order[n - 1] == x && x !in order[..n - 1]
    ensures forall i :: 0 <= i < |order| && order[i] == x ==> n <= i + 1
  {
    if order == [] then 0
    else
      var front := order[..|order| - 1];
      assert order == front + [order[|order| - 1]];
      var n := First(front, x);
      if n > 0 then assert order[..n - 1] == front[..n - 1]; n
      else if order[|order| - 1] == x then |order| else 0
  }

  /** A path out of the first `n` drained messages goes strictly back in the drain order. */
  lemma {:induction false} PathGoesBack(g: Graph, anchors: set<string>, targets: seq<string>, order: seq<string>,
                                        p: seq<string>,
                                        i: nat, j: nat, n: nat)
    requires InOrder(g, anchors, targets, order) && Path(g, anchors, targets, p)
    requires i <= j < |p| && n <= |order| && p[i] in order[..n]
    ensures j - i <= n && p[j] in order[..n - (j - i)]
    decreases j - i
  {
    if i < j {
      assert Leads(g, anchors, targets, p[i], p[i + 1]);
      LeadsBack(g, anchors, targets, order, p[i], p[i + 1], n);
      PathGoesBack(g, anchors, targets, order, p, i + 1, j, n - 1);
    }
  }

  lemma LeadsBack(g: Graph, anchors: set<string>, targets: seq<string>, order: seq<string>, v: string, u: string,
                  n: nat)
    requires InOrder(g, anchors, targets, order) && Leads(g, anchors, targets, v, u)
    requires n <= |order| && v in order[..n]
    ensures n > 0 && u in order[..n - 1]
  {
    var k :| 0 <= k < n && order[k] == v;
    LeadsIsStep(g, anchors, targets, v, u);
    assert RestsOn(g, anchors, targets, Members(order[..k]), order[k]);
    var q :| 0 <= q < k && order[q] == u;
    assert order[..n - 1][q] == u;
  }

  lemma DrainedReachesNone(g: Graph, anchors: set<string>, targets: seq<string>, order: seq<string>, x: string)
    requires InOrder(g, anchors, targets, order) && x in order
    ensures !ReachesCycle(g, anchors, targets, x)
  {
    forall p, i: nat, j: nat | Path(g, anchors, targets, p) && p[0] == x && i < j < |p| ensures p[i] != p[j] {
      assert order[..|order|] == order;
      PathGoesBack(g, anchors, targets, order, p, 0, i, |order|);
      assert p[i] in order;
      var n := First(order, p[i]);
      assert order[..n][n - 1] == p[i];
      PathGoesBack(g, anchors, targets, order, p, i, j, n);
      assert order[..n - (j - i)] <= order[..n - 1];
    }
  }

  /** Messages off the queue lead on among themselves for as long as one likes. */
  lemma {:induction false} LongPath(g: Graph, anchors: set<string>, inReach: set<string>, targets: seq<string>,
                                    mass: map<string, real>, order: seq<string>, x: string, n: nat)
    returns (p: seq<string>)
    requires Drained(g, anchors, inReach, targets, mass, order)
    requires forall u :: u in targets && u !in anchors ==> u in inReach
    requires x in inReach && x !in mass
    ensures Path(g, anchors, targets, p) && p[0] == x && |p| == n + 1
    ensures forall i :: 0 <= i < |p| ==> p[i] in inReach - mass.Keys
    decreases n
  {
    if n == 0 {
      p := [x];
    } else {
      assert Stuck(g, anchors, targets, mass.Keys, x);
      var s :| s in StepsFrom(g, targets, x) && s.to !in anchors && s.to !in mass;
      var rest := LongPath(g, anchors, inReach, targets, mass, order, s.to, n - 1);
      p := [x] + rest;
      LeadsIsStep(g, anchors, targets, x, s.to);
      LongerPath(g, anchors, targets, x, rest);
    }
  }

  lemma LongerPath(g: Graph, anchors: set<string>, targets: seq<string>, x: string, rest: seq<string>)
    requires Path(g, anchors, targets, rest) && Leads(g, anchors, targets, x, rest[0])
    ensures Path(g, anchors, targets, [x] + rest)
  {
    var p := [x] + rest;
    forall i, j | 0 <= i && j == i + 1 && j < |p| ensures Leads(g, anchors, targets, p[i], p[j]) {
      assert i > 0 ==> Leads(g, anchors, targets, rest[i - 1], rest[j - 1]);
    }
  }

  lemma LeftoverReachesCycle(g: Graph, anchors: set<string>, inReach: set<string>, targets: seq<string>,
                             mass: map<string, real>, order: seq<string>, x: string)
    requires Drained(g, anchors, inReach, targets, mass, order)
    requires forall u :: u in targets && u !in anchors ==> u in inReach
    requires x in inReach && x !in mass
    ensures ReachesCycle(g, anchors, targets, x)
  {
    var off := inReach - mass.Keys;
    var p := LongPath(g, anchors, inReach, targets, mass, order, x, |off|);
    if Distinct(p) {
      DistinctFits(p, off);
      assert false;
    }
  }

  /** The worklist drains exactly the kept messages that reach no cycle. */
  lemma DrainedExactly(g: Graph, anchors: set<string>, inReach: set<string>, targets: seq<string>,
                       mass: map<string, real>, order: seq<string>, x: string)
    requires Drained(g, anchors, inReach, targets, mass, order)
    requires forall u :: u in targets && u !in anchors ==> u in inReach
    requires x in inReach
    ensures x in mass <==> !ReachesCycle(g, anchors, targets, x)
  {
    if x in mass {
      DrainedReachesNone(g, anchors, targets, order, x);
    } else {
      LeftoverReachesCycle(g, anchors, inReach, targets, mass, order, x);
    }
  }

  /** Ranked provenance has no cycle to reach. */
  lemma AcyclicReachesNone(g: Graph, anchors: set<string>, targets: seq<string>, x: string)
    requires Acyclic(g, anchors, targets)
    ensures !ReachesCycle(g, anchors, targets, x)
  {
    var rank: string -> int :| Ranked(g, anchors, targets, rank);
    forall p, i: nat, j: nat | Path(g, anchors, targets, p) && i < j < |p| ensures p[i] != p[j] {
      PathClimbs(g, anchors, targets, rank, p, i, j);
    }
  }

  lemma {:induction false} PathClimbs(g: Graph, anchors: set<string>, targets: seq<string>, rank: string -> int,
                                      p: seq<string>,
                                      i: nat, j: nat)
    requires Ranked(g, anchors, targets, rank) && Path(g, anchors, targets, p) && i < j < |p|
    ensures rank(p[i]) < rank(p[j])
    decreases j - i
  {
    assert Leads(g, anchors, targets, p[j - 1], p[j]);
    var k: nat :| Exists(g, Step(p[j], k)) && Taken(g, Step(p[j], k)).from == p[j - 1];
    assert Taken(g, Step(p[j], k)) in In(g, p[j]);
    if i < j - 1 { PathClimbs(g, anchors, targets, rank, p, i, j - 1); }
  }

  // ----- Exact mass off the cycles -----

  /** The targets that are anchors or in `done`. */
  ghost function Tame(targets: seq<string>, anchors: set<string>, done: set<string>): (r: seq<string>)
    ensures forall u :: u in r <==> u in targets && (u in anchors || u in done)
  {
    if targets == [] then []
    else
      var u, rest := targets[|targets| - 1], Tame(targets[..|targets| - 1], anchors, done);
      assert targets == targets[..|targets| - 1] + [u];
      if u in anchors || u in done then rest + [u] else rest
  }

  lemma {:induction false} TameIsDistinct(targets: seq<string>, anchors: set<string>, done: set<string>)
    requires Distinct(targets)
    ensures Distinct(Tame(targets, anchors, done))
  {
    if targets != [] {
      var front, u := targets[..|targets| - 1], targets[|targets| - 1];
      TameIsDistinct(front, anchors, done);
      assert u !in front;
    }
  }

  /** A message that rests on `done` sees no other target. */
  lemma {:induction false} TameSteps(g: Graph, anchors: set<string>, targets: seq<string>, done: set<string>, v: string)
    requires RestsOn(g, anchors, targets, done, v)
    ensures StepsFrom(g, Tame(targets, anchors, done), v) == StepsFrom(g, targets, v)
  {
    if targets != [] {
      var front, u := targets[..|targets| - 1], targets[|targets| - 1];
      assert targets == front + [u];
      assert RestsOn(g, anchors, front, done, v);
      TameSteps(g, anchors, front, done, v);
      if u in anchors || u in done {
        var r := Tame(front, anchors, done);
        assert (r + [u])[..|r|] == r;
      } else {
        NoStepsInto(g, anchors, targets, done, v, u);
      }
    }
  }

  lemma NoStepsInto(g: Graph, anchors: set<string>, targets: seq<string>, done: set<string>, v: string, u: string)
    requires RestsOn(g, anchors, targets, done, v) && u in targets && u !in anchors && u !in done
    ensures StepsAt(g, u, v, |In(g, u)|) == []
  {
    forall k: nat | k < |In(g, u)| ensures In(g, u)[k].from != v {
      assert In(g, u)[k].from == v ==> Step(u, k) in StepsFrom(g, targets, v);
    }
    NoSteps(g, u, v, |In(g, u)|);
  }

  lemma {:induction false} NoSteps(g: Graph, u: string, v: string, n: nat)
    requires n <= |In(g, u)| && forall k: nat :: k < n ==> In(g, u)[k].from != v
    ensures StepsAt(g, u, v, n) == []
  {
    if n > 0 { NoSteps(g, u, v, n - 1); }
  }

  lemma {:induction false} TameTrails(g: Graph, anchors: set<string>, targets: seq<string>, order: seq<string>,
                                      v: string, p: seq<Step>)
    requires InOrder(g, anchors, targets, order) && v in order
    ensures KeptTrail(g, anchors, Tame(targets, anchors, Members(order)), v, p) <==>
                KeptTrail(g, anchors, targets, v, p)
    decreases p
  {
    if p != [] && p[0].to in targets && Exists(g, p[0]) && Taken(g, p[0]).from == v {
      DrainedRests(g, anchors, targets, order, v);
      assert p[0] in StepsFrom(g, targets, v);
      if p[0].to !in anchors { TameTrails(g, anchors, targets, order, p[0].to, p[1..]); }
    }
  }

  lemma DrainedRests(g: Graph, anchors: set<string>, targets: seq<string>, order: seq<string>, v: string)
    requires InOrder(g, anchors, targets, order) && v in order
    ensures First(order, v) > 0 && RestsOn(g, anchors, targets, Members(order[..First(order, v) - 1]), v)
    ensures RestsOn(g, anchors, targets, Members(order), v)
  {
    var n := First(order, v) - 1;
    assert RestsOn(g, anchors, targets, Members(order[..n]), order[n]);
    assert Members(order[..n]) <= Members(order);
  }

  /** Later in the drain order is older; what was not drained is older still. */
  ghost function DrainRank(order: seq<string>): string -> int {
    x => if First(order, x) == 0 then -(|order| + 1) else -(First(order, x) as int)
  }

  lemma TameIsRanked(g: Graph, anchors: set<string>, targets: seq<string>, order: seq<string>)
    requires InOrder(g, anchors, targets, order)
    ensures Ranked(g, anchors, Tame(targets, anchors, Members(order)), DrainRank(order))
  {
    var rank := DrainRank(order);
    forall u, c | u in Tame(targets, anchors, Members(order)) && u !in anchors && c in In(g, u)
      ensures rank(c.from) < rank(u)
    {
      if c.from in order {
        var k :| 0 <= k < |In(g, u)| && In(g, u)[k] == c;
        var n := First(order, c.from);
        DrainedRests(g, anchors, targets, order, c.from);
        assert Step(u, k) in StepsFrom(g, targets, c.from);
        assert u in order[..n - 1];
        FirstIsFirst(order, u, n - 1);
      }
    }
  }

  lemma FirstIsFirst(order: seq<string>, x: string, n: nat)
    requires n <= |order| && x in order[..n]
    ensures 0 < First(order, x) <= n
  {
    var i :| 0 <= i < n && order[i] == x;
  }

  /** A drained message's mass is the sum over all its trails, cycles elsewhere or not. */
  lemma DrainedIsExact(g: Graph, anchors: set<string>, inReach: set<string>, targets: seq<string>,
                       mass: map<string, real>, order: seq<string>, v: string)
    requires Drained(g, anchors, inReach, targets, mass, order) && Distinct(targets)
    requires v in mass && v in targets && v !in anchors
    ensures ExactMass(g, anchors, targets, v, mass[v])
  {
    var tame := Tame(targets, anchors, Members(order));
    TameIsRanked(g, anchors, targets, order);
    TameIsDistinct(targets, anchors, Members(order));
    TameIsBalanced(g, anchors, targets, mass, order);
    BalancedIsExact(g, anchors, tame, mass, v);
    var ps :| Enumerates(g, anchors, tame, v, ps) && mass[v] == SumProducts(g, ps);
    forall p ensures p in ps <==> KeptTrail(g, anchors, targets, v, p) { TameTrails(g, anchors, targets, order, v, p); }
    assert Enumerates(g, anchors, targets, v, ps);
  }

  lemma TameIsBalanced(g: Graph, anchors: set<string>, targets: seq<string>, mass: map<string, real>,
                       order: seq<string>)
    requires InOrder(g, anchors, targets, order) && AllGrounded(g, anchors, targets, mass) &&
             mass.Keys == Members(order)
    ensures AllBalanced(g, anchors, Tame(targets, anchors, Members(order)), mass)
  {
    var tame := Tame(targets, anchors, Members(order));
    forall u | u in tame && u !in anchors ensures Balanced(g, anchors, tame, mass, u) {
      assert Grounded(g, anchors, targets, mass, u);
      DrainedRests(g, anchors, targets, order, u);
      TameSteps(g, anchors, targets, Members(order), u);
    }
  }

  // ----- A message that reaches a cycle has trails without end -----

  /** Some trail through kept messages leads from `u` to an anchor. */
  ghost predicate Arrives(g: Graph, anchors: set<string>, targets: seq<string>, u: string) {
    exists t :: KeptTrail(g, anchors, targets, u, t)
  }

  /** Going around the cycle once more. */
  lemma Pump(g: Graph, anchors: set<string>, targets: seq<string>, p: seq<string>, i: nat, j: nat)
    returns (q: seq<string>)
    requires Path(g, anchors, targets, p) && i < j < |p| && p[i] == p[j]
    ensures Path(g, anchors, targets, q) && q[0] == p[0] && |q| > |p| && q[i] == q[j]
  {
    q := p[..j] + p[i..];
    forall a, b | 0 <= a && b == a + 1 && b < |q| ensures Leads(g, anchors, targets, q[a], q[b]) {
      if a < j {
        assert q[a] == p[a] && q[b] == p[b] && Leads(g, anchors, targets, p[a], p[b]);
      } else {
        assert q[a] == p[a - (j - i)] && q[b] == p[b - (j - i)];
        assert Leads(g, anchors, targets, p[a - (j - i)], p[b - (j - i)]);
      }
    }
  }

  lemma {:induction false} PathOfLength(g: Graph, anchors: set<string>, targets: seq<string>, p: seq<string>, i: nat,
                                        j: nat, n: nat)
    returns (q: seq<string>)
    requires Path(g, anchors, targets, p) && i < j < |p| && p[i] == p[j]
    ensures Path(g, anchors, targets, q) && q[0] == p[0] && |q| > 1 && |q| >= n
    decreases n - |p|
  {
    q := p;
    if |p| < n {
      var more := Pump(g, anchors, targets, p, i, j);
      q := PathOfLength(g, anchors, targets, more, i, j, n);
    }
  }

  /** A path that ends where a trail starts makes a trail of its own length at least. */
  lemma {:induction false} TrailAlong(g: Graph, anchors: set<string>, targets: seq<string>, p: seq<string>,
                                      t: seq<Step>)
    returns (r: seq<Step>)
    requires Path(g, anchors, targets, p) && KeptTrail(g, anchors, targets, p[|p| - 1], t)
    ensures KeptTrail(g, anchors, targets, p[0], r) && |r| >= |p|
    decreases |p|
  {
    if |p| == 1 {
      r := t;
    } else {
      assert Leads(g, anchors, targets, p[0], p[1]);
      PathTail(g, anchors, targets, p);
      var rest := TrailAlong(g, anchors, targets, p[1..], t);
      var k: nat :| Exists(g, Step(p[1], k)) && Taken(g, Step(p[1], k)).from == p[0];
      r := [Step(p[1], k)] + rest;
      assert r[1..] == rest;
    }
  }

  lemma PathTail(g: Graph, anchors: set<string>, targets: seq<string>, p: seq<string>)
    requires Path(g, anchors, targets, p) && |p| > 1
    ensures Path(g, anchors, targets, p[1..])
  {
    var q := p[1..];
    forall a, b | 0 <= a && b == a + 1 && b < |q| ensures Leads(g, anchors, targets, q[a], q[b]) {
      assert Leads(g, anchors, targets, p[a + 1], p[b + 1]);
    }
  }

  ghost function TotalLength(ps: seq<seq<Step>>): (n: nat)
    ensures forall p :: p in ps ==> |p| <= n
  {
    if ps == [] then 0 else |ps[0]| + TotalLength(ps[1..])
  }

  /** A message that reaches a cycle has no exact mass at all: no finite list holds its trails. */
  lemma CycleIsInexact(g: Graph, anchors: set<string>, targets: seq<string>, v: string, m: real)
    requires ReachesCycle(g, anchors, targets, v)
    requires forall u :: u in targets && u !in anchors ==> Arrives(g, anchors, targets, u)
    ensures !ExactMass(g, anchors, targets, v, m)
  {
    var p, i, j :| Path(g, anchors, targets, p) && p[0] == v && 0 <= i < j < |p| && p[i] == p[j];
    forall ps ensures !Enumerates(g, anchors, targets, v, ps) {
      var q := PathOfLength(g, anchors, targets, p, i, j, TotalLength(ps) + 1);
      assert Leads(g, anchors, targets, q[|q| - 2], q[|q| - 1]);
      var t :| KeptTrail(g, anchors, targets, q[|q| - 1], t);
      var r := TrailAlong(g, anchors, targets, q, t);
      assert r !in ps;
    }
  }
}
