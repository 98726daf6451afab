/** The mass of a message as a sum over the recorded edges themselves (rrc/provenance.go). */
module ProvenanceSums {
  import opened Dag
  import opened Provenance
  import opened ProvenanceEdges
  import opened ProvenanceMass
  import opened ProvenanceKahn
  import opened ProvenanceCycles
  import opened ProvenanceWalk
  import opened ProvenanceOrder
  import opened ProvenanceAnchors
  import opened Sorting

  /** What the recorded edges out of `x` bring it: the score of each in-scope provenance edge, times
      1 into an anchor, times the target's own mass into a kept message, and nothing elsewhere. */
  ghost function EdgeSum(log: seq<Edge>, cone: string, scope: Scope, anchorIDs: seq<string>,
                         mass: map<string, real>, x: string): real {
    if log == [] then 0.0
    else
      var e := log[|log| - 1];
      EdgeSum(log[..|log| - 1], cone, scope, anchorIDs, mass, x) + Carries(e, cone, scope, anchorIDs, mass, x)
  }

  ghost function Carries(e: Edge, cone: string, scope: Scope, anchorIDs: seq<string>, mass: map<string, real>,
                         x: string): real {
    if e.source == EdgeSource.Provenance && e.from == x &&
       (scope == AllThreads || (e.fromThread == cone && e.toThread == cone))
    then e.score * (if e.to in anchorIDs then 1.0 else if e.to in mass then mass[e.to] else 0.0)
    else 0.0
  }

  // ----- The sum over targets, regrouped by edge -----

  /** What the edges of `log` into the targets `ts` bring `x`, target by target. */
  ghost function Regrouped(log: seq<Edge>, cone: string, scope: Scope, anchors: set<string>, mass: map<string, real>,
                           ts: seq<string>, x: string): real {
    if ts == [] then 0.0
    else
      var u := ts[|ts| - 1];
      Regrouped(log, cone, scope, anchors, mass, ts[..|ts| - 1], x) +
      Earned(Contributions(Into(log, u), cone, scope), x, Worth(anchors, mass, u))
  }

  /** What one more edge brings. */
  ghost function Brings(e: Edge, cone: string, scope: Scope, anchors: set<string>, mass: map<string, real>,
                        x: string): real {
    if e.source == EdgeSource.Provenance && e.from == x &&
       (scope == AllThreads || (e.fromThread == cone && e.toThread == cone))
    then Share(e.score, Worth(anchors, mass, e.to)) else 0.0
  }

  lemma EarnedGrowsByEdge(log: seq<Edge>, e: Edge, cone: string, scope: Scope, x: string, u: string, worth: real)
    ensures Earned(Contributions(Into(log + [e], u), cone, scope), x, worth) ==
            Earned(Contributions(Into(log, u), cone, scope), x, worth) +
            (if e.to == u && e.source == EdgeSource.Provenance && e.from == x &&
                (scope == AllThreads || (e.fromThread == cone && e.toThread == cone)) then Share(e.score, worth)
                    else 0.0)
  {
    assert (log + [e])[..|log|] == log;
    var before := Into(log, u);
    if e.to == u {
      assert (before + [e])[..|before|] == before;
      var cs := Contributions(before, cone, scope);
      if Walkable(e, cone, scope) {
        assert Contributions(before + [e], cone, scope) == cs + [Contribution(e.from, e.score)];
        assert (cs + [Contribution(e.from, e.score)])[..|cs|] == cs;
      } else {
        assert cs + [] == cs;
      }
    } else {
      assert before + [] == before;
    }
  }

  lemma {:induction false} RegroupedGrows(log: seq<Edge>, e: Edge, cone: string, scope: Scope, anchors: set<string>,
                                          mass: map<string, real>, ts: seq<string>, x: string)
    requires Distinct(ts)
    ensures Regrouped(log + [e], cone, scope, anchors, mass, ts, x) ==
            Regrouped(log, cone, scope, anchors, mass, ts, x) +
            (if e.to in ts then Brings(e, cone, scope, anchors, mass, x) else 0.0)
  {
    if ts != [] {
      var front, u := ts[..|ts| - 1], ts[|ts| - 1];
      assert ts == front + [u];
      RegroupedGrows(log, e, cone, scope, anchors, mass, front, x);
      EarnedGrowsByEdge(log, e, cone, scope, x, u, Worth(anchors, mass, u));
    }
  }

  lemma {:induction false} RegroupedNothing(cone: string, scope: Scope, anchors: set<string>, mass: map<string, real>,
                                            ts: seq<string>, x: string)
    ensures Regrouped([], cone, scope, anchors, mass, ts, x) == 0.0
  {
    if ts != [] { RegroupedNothing(cone, scope, anchors, mass, ts[..|ts| - 1], x); }
  }

  lemma {:induction false} RegroupedIsEdgeSum(log: seq<Edge>, cone: string, scope: Scope, anchorIDs: seq<string>,
                                              mass: map<string, real>, ts: seq<string>, x: string)
    requires Distinct(ts) && forall u :: u in ts <==> u in anchorIDs || u in mass
    ensures Regrouped(log, cone, scope, Members(anchorIDs), mass, ts, x) ==
            EdgeSum(log, cone, scope, anchorIDs, mass, x)
  {
    if log == [] {
      RegroupedNothing(cone, scope, Members(anchorIDs), mass, ts, x);
    } else {
      var front, e := log[..|log| - 1], log[|log| - 1];
      assert log == front + [e];
      RegroupedIsEdgeSum(front, cone, scope, anchorIDs, mass, ts, x);
      RegroupedGrows(front, e, cone, scope, Members(anchorIDs), mass, ts, x);
      CarriesIsBrought(e, cone, scope, anchorIDs, mass, x);
    }
  }

  lemma CarriesIsBrought(e: Edge, cone: string, scope: Scope, anchorIDs: seq<string>, mass: map<string, real>,
                         x: string)
    ensures Carries(e, cone, scope, anchorIDs, mass, x) == Brings(e, cone, scope, Members(anchorIDs), mass, x)
    ensures e.to !in anchorIDs && e.to !in mass ==> Carries(e, cone, scope, anchorIDs, mass, x) == 0.0
  {
  }

  lemma {:induction false} TotalIsRegrouped(d: Dag, cone: string, scope: Scope, anchors: set<string>,
                                            mass: map<string, real>, ts: seq<string>, x: string)
    requires d.Valid()
    ensures Total(View(d.backward, cone, scope), anchors, mass, ts, x) ==
            Regrouped(d.log, cone, scope, anchors, mass, ts, x)
  {
    if ts != [] {
      TotalIsRegrouped(d, cone, scope, anchors, mass, ts[..|ts| - 1], x);
      assert Lookup(d.backward, ts[|ts| - 1]) == Into(d.log, ts[|ts| - 1]);
    }
  }

  // ----- What a walk returns -----

  /** With distinct anchors, the mass of a kept message that reaches no cycle is the sum over the
      recorded edges out of it. */
  lemma MassIsEdgeSum(d: Dag, cone: string, scope: Scope, anchorIDs: seq<string>, kept: seq<string>,
                      bound: map<string, real>, mass: map<string, real>, truncated: bool, x: string)
    requires d.Valid() && WalkPromise(View(d.backward, cone, scope), anchorIDs, kept, bound, mass, truncated)
    requires Distinct(anchorIDs) && x in kept
    requires !ReachesCycle(View(d.backward, cone, scope), Members(anchorIDs), Targets(anchorIDs, kept), x)
    ensures x in mass && mass[x] == EdgeSum(d.log, cone, scope, anchorIDs, mass, x)
  {
    var g, anchors, targets := View(d.backward, cone, scope), Members(anchorIDs), Targets(anchorIDs, kept);
    assert Sure(g, anchorIDs, kept, bound, mass, x);
    assert forall k :: k in kept ==> k !in anchors;
    TargetsAre(anchorIDs, kept);
    TotalIsSum(g, anchors, mass, targets, x);
    TotalIsRegrouped(d, cone, scope, anchors, mass, targets, x);
    assert forall k :: k in mass <==> k in Members(kept);
    RegroupedIsEdgeSum(d.log, cone, scope, anchorIDs, mass, targets, x);
  }

  /** The scores of the in-scope provenance edges out of `x`. */
  ghost function ScoreSum(log: seq<Edge>, cone: string, scope: Scope, x: string): real {
    if log == [] then 0.0
    else
      var e := log[|log| - 1];
      ScoreSum(log[..|log| - 1], cone, scope, x) +
      (if e.source == EdgeSource.Provenance && e.from == x &&
          (scope == AllThreads || (e.fromThread == cone && e.toThread == cone)) then e.score else 0.0)
  }

  /** Every in-scope provenance edge out of `x` leads straight into an anchor. */
  ghost predicate StraightIn(log: seq<Edge>, cone: string, scope: Scope, anchorIDs: seq<string>, x: string) {
    forall e :: e in log && e.from == x && e.source == EdgeSource.Provenance ==>
                  (scope != AllThreads && (e.fromThread != cone || e.toThread != cone)) || e.to in anchorIDs
  }

  lemma {:induction false} StraightSum(log: seq<Edge>, cone: string, scope: Scope, anchorIDs: seq<string>,
                                       mass: map<string, real>, x: string)
    requires StraightIn(log, cone, scope, anchorIDs, x)
    ensures EdgeSum(log, cone, scope, anchorIDs, mass, x) == ScoreSum(log, cone, scope, x)
  {
    if log != [] {
      var front, e := log[..|log| - 1], log[|log| - 1];
      assert e in log && forall f :: f in front ==> f in log;
      StraightSum(front, cone, scope, anchorIDs, mass, x);
      assert e.to in anchorIDs ==> e.score * 1.0 == e.score;
    }
  }

  lemma FirstHop(g: Graph, anchors: set<string>, targets: seq<string>, p: seq<string>)
    requires Path(g, anchors, targets, p) && |p| > 1
    ensures Leads(g, anchors, targets, p[0], p[1])
  {
  }

  /** A message fed only straight into distinct anchors has the sum of those scores as its mass. */
  lemma StraightMass(d: Dag, cone: string, scope: Scope, anchorIDs: seq<string>, kept: seq<string>,
                     bound: map<string, real>, mass: map<string, real>, truncated: bool, x: string)
    requires d.Valid() && WalkPromise(View(d.backward, cone, scope), anchorIDs, kept, bound, mass, truncated)
    requires Distinct(anchorIDs) && x in kept && StraightIn(d.log, cone, scope, anchorIDs, x)
    ensures x in mass && mass[x] == ScoreSum(d.log, cone, scope, x)
  {
    var g, anchors, targets := View(d.backward, cone, scope), Members(anchorIDs), Targets(anchorIDs, kept);
    forall u ensures !Leads(g, anchors, targets, x, u) {
      if Leads(g, anchors, targets, x, u) {
        var k: nat :| Exists(g, Step(u, k)) && Taken(g, Step(u, k)).from == x;
        var e := StepIsEdge(d, cone, scope, Step(u, k));
      }
    }
    assert !ReachesCycle(g, anchors, targets, x) by {
      forall p | Path(g, anchors, targets, p) && p[0] == x ensures |p| == 1 {
        if |p| > 1 { FirstHop(g, anchors, targets, p); }
      }
    }
    MassIsEdgeSum(d, cone, scope, anchorIDs, kept, bound, mass, truncated, x);
    StraightSum(d.log, cone, scope, anchorIDs, mass, x);
  }
}
