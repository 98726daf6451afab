/** The whole provenance walk: best-first reach, then mass; what one turn may conclude from it
    (rrc/provenance.go). */
module ProvenanceWalk {
  import opened Dag
  import opened Provenance
  import opened ProvenanceReach
  import opened ProvenanceEdges
  import opened ProvenanceMass
  import opened ProvenanceKahn
  import opened ProvenanceCycles
  import opened Sorting
  import Ids

  /** How many messages one walk may surface. */
  const REACH_CAP: nat := 64

  // ----- Mass and bound -----

  ghost predicate NonNegative(g: Graph) {
    forall id, c :: id in g && c in g[id] ==> c.weight >= 0.0
  }

  lemma WeightNonNegative(g: Graph, s: Step)
    requires NonNegative(g)
    ensures Weight(g, s) >= 0.0
  {
    if Exists(g, s) { assert Taken(g, s) in g[s.to]; }
  }

  lemma {:induction false} SumStepsNonNegative(g: Graph, anchors: set<string>, mass: map<string, real>,
                                               steps: seq<Step>)
    requires NonNegative(g)
    requires forall s :: s in steps && s.to !in anchors && s.to in mass ==> mass[s.to] >= 0.0
    ensures SumSteps(g, anchors, mass, steps) >= 0.0
    ensures forall s :: s in steps ==> Value(g, anchors, mass, s) <= SumSteps(g, anchors, mass, steps)
  {
    if steps != [] {
      var last, front := steps[|steps| - 1], steps[..|steps| - 1];
      assert last in steps && forall s :: s in front ==> s in steps;
      SumStepsNonNegative(g, anchors, mass, front);
      ValueNonNegative(g, anchors, mass, last);
      assert steps == front + [last];
    }
  }

  lemma ValueNonNegative(g: Graph, anchors: set<string>, mass: map<string, real>, s: Step)
    requires NonNegative(g) && (s.to !in anchors && s.to in mass ==> mass[s.to] >= 0.0)
    ensures Value(g, anchors, mass, s) >= 0.0
  {
    WeightNonNegative(g, s);
  }

  lemma ClampedIsLess(w: real, b: real, m: real)
    requires 0.0 <= w && 0.0 <= b <= m
    ensures Through(b, w) <= w * m
  {
    assert Clamp01(w) <= w;
    assert (w - Clamp01(w)) * m >= 0.0;
    ThroughMonotone(b, m, w);
    assert Through(m, w) == m * Clamp01(w);
  }

  /** The bound of `k` is not negative and is offered by an edge into the anchors or `kept`. */
  ghost predicate BoundedBy(g: Graph, anchors: set<string>, kept: seq<string>, bound: map<string, real>, k: string) {
    k in bound && 0.0 <= bound[k] && Offered(g, anchors, kept, bound, k, bound[k])
  }

  /** With non-negative weights the path sum is at least its dominant term: the phase-1 bound. */
  lemma {:induction false} MassAtLeastBound(g: Graph, anchors: set<string>, targets: seq<string>, rank: string -> int,
                                            kept: seq<string>, bound: map<string, real>, mass: map<string, real>,
                                            v: string)
    requires NonNegative(g) && Ranked(g, anchors, targets, rank)
    requires forall u :: u in targets <==> u in anchors || u in kept
    requires forall k :: k in kept ==> k in mass && Balanced(g, anchors, targets, mass, k)
    requires forall k :: k in kept ==> BoundedBy(g, anchors, kept, bound, k)
    requires v in kept
    ensures v in bound && v in mass && 0.0 <= bound[v] <= mass[v]
    decreases |Above(anchors, targets, rank, v)|
  {
    var steps := StepsFrom(g, targets, v);
    forall s | s in steps && s.to !in anchors
      ensures s.to in bound && s.to in mass && 0.0 <= bound[s.to] <= mass[s.to]
    {
      StepClimbs(g, anchors, targets, rank, v, s);
      MassAtLeastBound(g, anchors, targets, rank, kept, bound, mass, s.to);
    }
    SumStepsNonNegative(g, anchors, mass, steps);
    assert BoundedBy(g, anchors, kept, bound, v);
    var s := OfferedStep(g, anchors, targets, kept, bound, v);
    OfferBelowValue(g, anchors, mass, s, Passes(anchors, bound, s.to));
    assert Balanced(g, anchors, targets, mass, v);
  }

  lemma OfferedStep(g: Graph, anchors: set<string>, targets: seq<string>, kept: seq<string>, bound: map<string, real>,
                    v: string)
    returns (s: Step)
    requires forall u :: u in targets <==> u in anchors || u in kept
    requires BoundedBy(g, anchors, kept, bound, v)
    ensures s in StepsFrom(g, targets, v) && bound[v] == Through(Passes(anchors, bound, s.to), Weight(g, s))
  {
    var u, c :| Settled(anchors, kept, u) && c in In(g, u) &&
        Offer(Passes(anchors, bound, u), c) == BoundEntry(v, bound[v]);
    var k :| 0 <= k < |In(g, u)| && In(g, u)[k] == c;
    s := Step(u, k);
  }

  lemma OfferBelowValue(g: Graph, anchors: set<string>, mass: map<string, real>, s: Step, passes: real)
    requires NonNegative(g)
    requires if s.to in anchors then passes == 1.0 else s.to in mass && 0.0 <= passes <= mass[s.to]
    ensures Through(passes, Weight(g, s)) <= Value(g, anchors, mass, s)
  {
    WeightNonNegative(g, s);
    ClampedIsLess(Weight(g, s), passes, if s.to in anchors then 1.0 else mass[s.to]);
  }

  // ----- The walk -----

  /** What is promised of a kept message: its equation holds; with distinct anchors its mass is the
      sum over all its trails; with non-negative weights that is at least its bound. */
  ghost predicate Sure(g: Graph, anchorIDs: seq<string>, kept: seq<string>, bound: map<string, real>,
                       mass: map<string, real>, k: string)
  {
    var anchors, targets := Members(anchorIDs), Targets(anchorIDs, kept);
    && Balanced(g, anchors, targets, mass, k)
    && (Distinct(anchorIDs) ==> ExactMass(g, anchors, targets, k, mass[k]))
    && (NonNegative(g) ==> k in bound && bound[k] <= mass[k])
  }

  /** The promise of one walk, in terms of the graph it saw. */
  ghost predicate WalkPromise(g: Graph, anchorIDs: seq<string>, kept: seq<string>, bound: map<string, real>,
                              mass: map<string, real>, truncated: bool)
  {
    var anchors, targets := Members(anchorIDs), Targets(anchorIDs, kept);
    && BestFirst(g, anchors, REACH_CAP, kept, bound, truncated)
    && mass.Keys == Members(kept)
    // Masses are determined on every graph, cyclic or not ...
    && PhaseTwo(g, anchors, Members(kept), targets, Ids.Sort(kept), mass)
    // ... and exact for every message that reaches no cycle.
    && (forall k {:trigger Sure(g, anchorIDs, kept, bound, mass, k)} ::
          k in kept && !ReachesCycle(g, anchors, targets, k) ==> Sure(g, anchorIDs, kept, bound, mass, k))
  }

  method MassWalk(d: Dag, anchorIDs: seq<string>, cone: string, scope: Scope)
    returns (mass: map<string, real>, threads: map<string, string>, truncated: bool,
             ghost kept: seq<string>, ghost bound: map<string, real>)
    ensures WalkPromise(View(d.backward, cone, scope), anchorIDs, kept, bound, mass, truncated)
    // Every message the walk looked past, and so every one with a mass, comes with a thread.
    ensures KnownThreads(d.backward, cone, scope, anchorIDs + kept, threads)
    ensures forall k :: k in mass ==> k in threads
    // In the edges' own terms: what feeds the window is kept, each message at its strongest path.
    ensures d.Valid() ==> KeepsStrongest(d.log, cone, scope, anchorIDs, kept, bound, truncated)
    ensures d.Valid() && !truncated ==> forall x :: x in mass <==> Feeds(d.log, cone, scope, anchorIDs, x)
    // The delivered window is never re-surfaced.
    ensures forall a :: a in anchorIDs ==> a !in mass
  {
    ghost var g, anchors := View(d.backward, cone, scope), Members(anchorIDs);
    var reached, best, cut := Reach(d.backward, anchorIDs, cone, scope, REACH_CAP);
    kept, bound, truncated := reached, best, cut;
    assert forall k :: k in reached ==> k in best && k !in anchors;
    mass := MassOver(d.backward, anchorIDs, cone, scope, reached);
    if d.Valid() { BestFirstIsStrongest(d, cone, scope, anchorIDs, REACH_CAP, reached, best, cut); }
    threads := ThreadsOf(d.backward, cone, scope, anchorIDs + reached);
    forall k | k in mass ensures k in threads {
      KeptIsNamed(d.backward, cone, scope, anchorIDs, reached, best, k);
    }
    forall k | k in reached && !ReachesCycle(g, anchors, Targets(anchorIDs, reached), k)
      ensures Sure(g, anchorIDs, reached, best, mass, k)
    {
      MassFollows(g, anchorIDs, reached, best, mass, k);
    }
  }

  lemma KeptIsNamed(backward: map<string, seq<Edge>>, cone: string, scope: Scope, anchorIDs: seq<string>,
                    kept: seq<string>, bound: map<string, real>, k: string)
    requires AllOffered(View(backward, cone, scope), Members(anchorIDs), kept, bound) && k in bound
    ensures exists t :: Names(backward, cone, scope, anchorIDs + kept, k, t)
  {
    var g, anchors := View(backward, cone, scope), Members(anchorIDs);
    assert Offered(g, anchors, kept, bound, k, bound[k]);
    var u, c :| Settled(anchors, kept, u) && c in In(g, u) &&
        Offer(Passes(anchors, bound, u), c) == BoundEntry(k, bound[k]);
    var e := ContributionIsEdge(Lookup(backward, u), cone, scope, c);
    assert u in anchorIDs + kept;
    assert Tells(e, cone, scope, k, e.fromThread);
    assert Names(backward, cone, scope, anchorIDs + kept, k, e.fromThread);
  }

  lemma MassFollows(g: Graph, anchorIDs: seq<string>, kept: seq<string>, bound: map<string, real>,
                    mass: map<string, real>, k: string)
    requires WellKept(Members(anchorIDs), kept, bound) && AllOffered(g, Members(anchorIDs), kept, bound)
    requires PhaseTwo(g, Members(anchorIDs), Members(kept), Targets(anchorIDs, kept), Ids.Sort(kept), mass)
    requires k in kept && !ReachesCycle(g, Members(anchorIDs), Targets(anchorIDs, kept), k)
    ensures Sure(g, anchorIDs, kept, bound, mass, k)
  {
    var anchors, targets := Members(anchorIDs), Targets(anchorIDs, kept);
    assert forall x :: x in kept ==> x in bound && x !in anchors;
    TargetsAre(anchorIDs, kept);
    var drained, order :| Drained(g, anchors, Members(kept), targets, drained, order) &&
                          mass == Finish(g, anchors, targets, Ids.Sort(kept), drained);
    DrainedExactly(g, anchors, Members(kept), targets, drained, order, k);
    DrainedCarriesOver(g, anchors, Members(kept), targets, Ids.Sort(kept), drained, order, k);
    if Distinct(anchorIDs) { DrainedIsExact(g, anchors, Members(kept), targets, drained, order, k); }
    if NonNegative(g) { DrainedAtLeastBound(g, anchors, targets, kept, bound, drained, order, k); }
  }

  /** Finishing the leftovers changes nothing about a drained message. */
  lemma DrainedCarriesOver(g: Graph, anchors: set<string>, inReach: set<string>, targets: seq<string>,
                           members: seq<string>,
                           drained: map<string, real>, order: seq<string>, k: string)
    requires Drained(g, anchors, inReach, targets, drained, order) && k in drained
    ensures var mass := Finish(g, anchors, targets, members, drained);
            Balanced(g, anchors, targets, mass, k) && mass[k] == drained[k]
  {
    var mass := Finish(g, anchors, targets, members, drained);
    assert Grounded(g, anchors, targets, drained, k);
    forall x | x in drained ensures x in mass && mass[x] == drained[x] {
      FinishKeeps(g, anchors, targets, members, drained, x);
    }
    SumStepsAgree(g, anchors, drained, mass, StepsFrom(g, targets, k));
  }

  lemma {:induction false} SumStepsAgree(g: Graph, anchors: set<string>, mass: map<string, real>,
                                         mass': map<string, real>,
                                         steps: seq<Step>)
    requires forall s :: s in steps ==> s.to in anchors || (s.to in mass && s.to in mass' && mass[s.to] == mass'[s.to])
    ensures SumSteps(g, anchors, mass, steps) == SumSteps(g, anchors, mass', steps)
  {
    if steps != [] {
      var last, front := steps[|steps| - 1], steps[..|steps| - 1];
      assert last in steps && forall s :: s in front ==> s in steps;
      SumStepsAgree(g, anchors, mass, mass', front);
    }
  }

  lemma DrainedAtLeastBound(g: Graph, anchors: set<string>, targets: seq<string>, kept: seq<string>,
                            bound: map<string, real>,
                            drained: map<string, real>, order: seq<string>, k: string)
    requires NonNegative(g) && WellKept(anchors, kept, bound) && AllOffered(g, anchors, kept, bound)
    requires forall u :: u in targets <==> u in anchors || u in kept
    requires Drained(g, anchors, Members(kept), targets, drained, order) && k in drained
    ensures k in bound && bound[k] <= drained[k]
  {
    var tame := Tame(targets, anchors, Members(order));
    TameIsRanked(g, anchors, targets, order);
    TameIsBalanced(g, anchors, targets, drained, order);
    forall x | x in order ensures BoundedBy(g, anchors, order, bound, x) {
      BoundedByDrained(g, anchors, targets, kept, bound, drained, order, x);
    }
    forall x | x in order ensures x in drained && Balanced(g, anchors, tame, drained, x) {
      assert x in kept && x in tame;
    }
    MassAtLeastBound(g, anchors, tame, DrainRank(order), order, bound, drained, k);
  }

  /** What offers a drained message its bound is an anchor or drained itself. */
  lemma BoundedByDrained(g: Graph, anchors: set<string>, targets: seq<string>, kept: seq<string>,
                         bound: map<string, real>,
                         drained: map<string, real>, order: seq<string>, x: string)
    requires WellKept(anchors, kept, bound) && AllOffered(g, anchors, kept, bound)
    requires forall u :: u in targets <==> u in anchors || u in kept
    requires Drained(g, anchors, Members(kept), targets, drained, order) && x in order
    ensures BoundedBy(g, anchors, order, bound, x)
  {
    assert x in drained && x in kept && Offered(g, anchors, kept, bound, x, bound[x]);
    var u, c :| Settled(anchors, kept, u) && c in In(g, u) &&
        Offer(Passes(anchors, bound, u), c) == BoundEntry(x, bound[x]);
    var j :| 0 <= j < |In(g, u)| && In(g, u)[j] == c;
    assert Step(u, j) in StepsFrom(g, targets, x);
    DrainedRests(g, anchors, targets, order, x);
    assert Settled(anchors, order, u);
  }

  // ----- Exact mass, exactly -----

  /** The kept messages up to any place all lead to an anchor through kept messages. */
  lemma {:induction false} KeptArrives(g: Graph, anchors: set<string>, targets: seq<string>, kept: seq<string>,
                                       bound: map<string, real>, n: nat)
    requires Canonical(g, anchors, kept, bound) && n < |kept|
    requires forall u :: u in anchors || u in kept ==> u in targets
    ensures Arrives(g, anchors, targets, kept[n])
    decreases n
  {
    var v := kept[n];
    assert Next(g, anchors, kept[..n], bound, v);
    var u, c :| Settled(anchors, kept[..n], u) && c in In(g, u) &&
        Offer(Passes(anchors, bound, u), c) == BoundEntry(v, bound[v]);
    var k: nat :| k < |In(g, u)| && In(g, u)[k] == c;
    if u in anchors {
      assert KeptTrail(g, anchors, targets, v, [Step(u, k)]);
    } else {
      var j :| 0 <= j < n && kept[j] == u;
      KeptArrives(g, anchors, targets, kept, bound, j);
      var t :| KeptTrail(g, anchors, targets, u, t);
      assert ([Step(u, k)] + t)[1..] == t;
      assert KeptTrail(g, anchors, targets, v, [Step(u, k)] + t);
    }
  }

  /** With distinct anchors a kept message's mass is exact exactly when it reaches no cycle; one
      that reaches a cycle has no exact mass at all. */
  lemma ExactOffCycles(g: Graph, anchorIDs: seq<string>, kept: seq<string>, bound: map<string, real>,
                       mass: map<string, real>, truncated: bool, k: string)
    requires WalkPromise(g, anchorIDs, kept, bound, mass, truncated) && k in kept
    ensures var anchors, targets := Members(anchorIDs), Targets(anchorIDs, kept);
            && (ReachesCycle(g, anchors, targets, k) ==> forall m :: !ExactMass(g, anchors, targets, k, m))
            && (Distinct(anchorIDs) ==>
                  (ExactMass(g, anchors, targets, k, mass[k]) <==> !ReachesCycle(g, anchors, targets, k)))
  {
    var anchors, targets := Members(anchorIDs), Targets(anchorIDs, kept);
    assert forall x :: x in kept ==> x !in anchors;
    TargetsAre(anchorIDs, kept);
    if ReachesCycle(g, anchors, targets, k) {
      forall u | u in targets && u !in anchors ensures Arrives(g, anchors, targets, u) {
        var n :| 0 <= n < |kept| && kept[n] == u;
        KeptArrives(g, anchors, targets, kept, bound, n);
      }
      forall m ensures !ExactMass(g, anchors, targets, k, m) { CycleIsInexact(g, anchors, targets, k, m); }
    } else {
      assert Sure(g, anchorIDs, kept, bound, mass, k);
    }
  }

  /** The same walk over an arbitrary edge list. */
  method MassOfEdges(edges: seq<Edge>, anchorIDs: seq<string>, cone: string, scope: Scope)
    returns (mass: map<string, real>, truncated: bool, ghost d: Dag, ghost kept: seq<string>,
             ghost bound: map<string, real>)
    ensures (forall a :: a in anchorIDs ==> a !in mass) && |mass| <= REACH_CAP
    ensures d.Valid() && d.log == edges
    ensures WalkPromise(View(d.backward, cone, scope), anchorIDs, kept, bound, mass, truncated)
  {
    var dag := new Dag();
    for i := 0 to |edges|
      invariant fresh(dag) && dag.Valid() && dag.log == edges[..i]
    {
      dag.AddEdge(edges[i]);
      assert edges[..i + 1] == edges[..i] + [edges[i]];
    }
    assert edges[..|edges|] == edges;
    d := dag;
    var threads;
    mass, threads, truncated, kept, bound := MassWalk(dag, anchorIDs, cone, scope);
    DistinctCount(kept);
  }
}
