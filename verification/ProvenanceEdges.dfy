/** What a provenance walk reads off the recorded edges, said in the fields of those edges
    (rrc/provenance.go). */
module ProvenanceEdges {
  import opened Dag
  import opened Provenance
  import opened ProvenanceReach
  import opened Sorting

  // ----- One adjacency list -----

  /** The places of `es` that hold an in-scope provenance edge from `x` of score `w`. */
  ghost function Places(es: seq<Edge>, cone: string, scope: Scope, x: string, w: real): set<int> {
    set i | 0 <= i < |es| && es[i].source == EdgeSource.Provenance && es[i].from == x && es[i].score == w &&
            (scope == AllThreads || (es[i].fromThread == cone && es[i].toThread == cone))
  }

  /** A contribution occurs as often as such an edge does. */
  lemma {:induction false} ContributionsAreEdges(es: seq<Edge>, cone: string, scope: Scope, x: string, w: real)
    ensures multiset(Contributions(es, cone, scope))[Contribution(x, w)] == |Places(es, cone, scope, x, w)|
  {
    if es != [] {
      var front, e := es[..|es| - 1], es[|es| - 1];
      ContributionsAreEdges(front, cone, scope, x, w);
      PlacesGrow(front, e, cone, scope, x, w);
      assert es == front + [e];
      var more := if Walkable(e, cone, scope) then [Contribution(e.from, e.score)] else [];
      assert multiset(Contributions(front, cone, scope) + more) == multiset(Contributions(front, cone, scope)) +
             multiset(more);
    }
  }

  lemma PlacesGrow(front: seq<Edge>, e: Edge, cone: string, scope: Scope, x: string, w: real)
    ensures |Places(front + [e], cone, scope, x, w)| == |Places(front, cone, scope, x, w)| +
            (if e.source == EdgeSource.Provenance && e.from == x && e.score == w &&
                (scope == AllThreads || (e.fromThread == cone && e.toThread == cone)) then 1 else 0)
  {
    var n, before, now := |front|, Places(front, cone, scope, x, w), Places(front + [e], cone, scope, x, w);
    forall i | 0 <= i < n ensures i in now <==> i in before { assert (front + [e])[i] == front[i]; }
    assert (front + [e])[n] == e;
    assert now == if n in now then before + {n} else before;
  }

  lemma EdgeIsContribution(es: seq<Edge>, cone: string, scope: Scope, e: Edge)
    requires e in es && e.source == EdgeSource.Provenance
    requires scope == AllThreads || (e.fromThread == cone && e.toThread == cone)
    ensures Contribution(e.from, e.score) in Contributions(es, cone, scope)
  {
    var i :| 0 <= i < |es| && es[i] == e;
    ContributionsAreEdges(es, cone, scope, e.from, e.score);
    assert i in Places(es, cone, scope, e.from, e.score);
  }

  // ----- Paths of edges -----

  /** `p` leads along recorded in-scope provenance edges from `x` to some anchor. */
  ghost predicate EdgePath(log: seq<Edge>, cone: string, scope: Scope, anchorIDs: seq<string>, x: string, p: seq<Edge>)
    decreases |p|
  {
    && p != [] && p[0].from == x
    && p[0] in log && p[0].source == EdgeSource.Provenance
    && (scope == AllThreads || (p[0].fromThread == cone && p[0].toThread == cone))
    && (if |p| == 1 then p[0].to in anchorIDs else EdgePath(log, cone, scope, anchorIDs, p[0].to, p[1..]))
  }

  /** The product of the scores along a path, each clamped to [0, 1]. */
  ghost function PathStrength(p: seq<Edge>): real {
    if p == [] then 1.0
    else PathStrength(p[1..]) * (if p[0].score < 0.0 then 0.0 else if p[0].score > 1.0 then 1.0 else p[0].score)
  }

  /** The step that a recorded edge is. */
  lemma EdgeIsStep(d: Dag, cone: string, scope: Scope, e: Edge) returns (s: Step)
    requires d.Valid() && e in d.log && e.source == EdgeSource.Provenance
    requires scope == AllThreads || (e.fromThread == cone && e.toThread == cone)
    ensures var g := View(d.backward, cone, scope);
            s.to == e.to && Exists(g, s) && Taken(g, s) == Contribution(e.from, e.score)
  {
    var es := Lookup(d.backward, e.to);
    DualAdjacency(d.log, e);
    assert e in es;
    EdgeIsContribution(es, cone, scope, e);
    var k :| 0 <= k < |Contributions(es, cone, scope)| &&
             Contributions(es, cone, scope)[k] == Contribution(e.from, e.score);
    s := Step(e.to, k);
  }

  /** The recorded edge that a step is. */
  lemma StepIsEdge(d: Dag, cone: string, scope: Scope, s: Step) returns (e: Edge)
    requires d.Valid() && Exists(View(d.backward, cone, scope), s)
    ensures e in d.log && e.to == s.to && e.source == EdgeSource.Provenance
    ensures scope == AllThreads || (e.fromThread == cone && e.toThread == cone)
    ensures Taken(View(d.backward, cone, scope), s) == Contribution(e.from, e.score)
  {
    var es := Lookup(d.backward, s.to);
    e := ContributionIsEdge(es, cone, scope, Taken(View(d.backward, cone, scope), s));
    IntoIsLogged(d.log, s.to, e);
  }

  lemma {:induction false} PathIsTrail(d: Dag, cone: string, scope: Scope, anchorIDs: seq<string>, x: string,
                                       p: seq<Edge>)
    returns (t: seq<Step>)
    requires d.Valid() && EdgePath(d.log, cone, scope, anchorIDs, x, p)
    ensures Trail(View(d.backward, cone, scope), Members(anchorIDs), x, t)
    ensures Strength(View(d.backward, cone, scope), t) == PathStrength(p)
    decreases |p|
  {
    var g, anchors := View(d.backward, cone, scope), Members(anchorIDs);
    var s := EdgeIsStep(d, cone, scope, p[0]);
    if |p| == 1 {
      LoneStep(g, anchors, s, p[0]);
      t := [s];
      assert p[1..] == [];
    } else {
      var rest := PathIsTrail(d, cone, scope, anchorIDs, p[0].to, p[1..]);
      LongerTrail(g, anchors, s, p[0], rest);
      t := [s] + rest;
    }
  }

  lemma LoneStep(g: Graph, anchors: set<string>, s: Step, e: Edge)
    requires s.to == e.to && e.to in anchors && Exists(g, s) && Taken(g, s) == Contribution(e.from, e.score)
    ensures Trail(g, anchors, e.from, [s]) && Strength(g, [s]) == PathStrength([e])
  {
    assert [s][1..] == [] && [e][1..] == [];
    assert Strength(g, []) == PathStrength([]) == 1.0;
  }

  lemma LongerTrail(g: Graph, anchors: set<string>, s: Step, e: Edge, rest: seq<Step>)
    requires s.to == e.to && Exists(g, s) && Taken(g, s) == Contribution(e.from, e.score)
    requires Trail(g, anchors, e.to, rest)
    ensures Trail(g, anchors, e.from, [s] + rest)
    ensures Strength(g, [s] + rest) ==
            Strength(g, rest) * (if e.score < 0.0 then 0.0 else if e.score > 1.0 then 1.0 else e.score)
  {
    assert ([s] + rest)[1..] == rest;
  }

  lemma {:induction false} TrailIsPath(d: Dag, cone: string, scope: Scope, anchorIDs: seq<string>, x: string,
                                       t: seq<Step>)
    returns (p: seq<Edge>)
    requires d.Valid() && Trail(View(d.backward, cone, scope), Members(anchorIDs), x, t)
    ensures EdgePath(d.log, cone, scope, anchorIDs, x, p)
    ensures PathStrength(p) == Strength(View(d.backward, cone, scope), t)
    decreases |t|
  {
    var g, anchors := View(d.backward, cone, scope), Members(anchorIDs);
    var s, more := t[0], t[1..];
    var e := StepIsEdge(d, cone, scope, s);
    FirstStep(g, anchors, x, t);
    if more == [] {
      LoneStep(g, anchors, s, e);
      LonePath(d.log, cone, scope, anchorIDs, e);
      p := [e];
    } else {
      var rest := TrailIsPath(d, cone, scope, anchorIDs, s.to, more);
      LongerTrail(g, anchors, s, e, more);
      LongerPath(d.log, cone, scope, anchorIDs, e, rest);
      p := [e] + rest;
    }
  }

  lemma FirstStep(g: Graph, anchors: set<string>, x: string, t: seq<Step>)
    requires Trail(g, anchors, x, t)
    ensures t == [t[0]] + t[1..] && if t[1..] == [] then t[0].to in anchors else Trail(g, anchors, t[0].to, t[1..])
  {
  }

  lemma LonePath(log: seq<Edge>, cone: string, scope: Scope, anchorIDs: seq<string>, e: Edge)
    requires e in log && e.source == EdgeSource.Provenance && e.to in anchorIDs
    requires scope == AllThreads || (e.fromThread == cone && e.toThread == cone)
    ensures EdgePath(log, cone, scope, anchorIDs, e.from, [e])
  {
  }

  lemma LongerPath(log: seq<Edge>, cone: string, scope: Scope, anchorIDs: seq<string>, e: Edge, rest: seq<Edge>)
    requires e in log && e.source == EdgeSource.Provenance
    requires scope == AllThreads || (e.fromThread == cone && e.toThread == cone)
    requires EdgePath(log, cone, scope, anchorIDs, e.to, rest)
    ensures EdgePath(log, cone, scope, anchorIDs, e.from, [e] + rest)
    ensures PathStrength([e] + rest) ==
            PathStrength(rest) * (if e.score < 0.0 then 0.0 else if e.score > 1.0 then 1.0 else e.score)
  {
    assert ([e] + rest)[1..] == rest;
  }

  // ----- What the walk keeps -----

  /** `x` feeds the window without being part of it. */
  ghost predicate Feeds(log: seq<Edge>, cone: string, scope: Scope, anchorIDs: seq<string>, x: string) {
    x !in anchorIDs && exists p :: EdgePath(log, cone, scope, anchorIDs, x, p)
  }

  /** Each kept message feeds the window and carries the strength of its strongest path, without
      truncation every message that feeds it is kept, and under truncation no path of a dropped
      message is stronger than a kept one's. */
  ghost predicate KeepsStrongest(log: seq<Edge>, cone: string, scope: Scope, anchorIDs: seq<string>,
                                 kept: seq<string>, bound: map<string, real>, truncated: bool) {
    && (forall x :: x in kept ==> Feeds(log, cone, scope, anchorIDs, x) && x in bound)
    && (forall x :: x in kept ==> exists p :: EdgePath(log, cone, scope, anchorIDs, x, p) &&
                                              PathStrength(p) == bound[x])
    && (forall x, p :: x in kept && EdgePath(log, cone, scope, anchorIDs, x, p) ==> PathStrength(p) <= bound[x])
    && (!truncated ==> forall x :: Feeds(log, cone, scope, anchorIDs, x) ==> x in kept)
    && (forall x, p, k :: x !in kept && x !in anchorIDs && EdgePath(log, cone, scope, anchorIDs, x, p) && k in kept ==>
                            PathStrength(p) <= bound[k])
  }

  lemma BestFirstIsStrongest(d: Dag, cone: string, scope: Scope, anchorIDs: seq<string>, cap: nat,
                             kept: seq<string>, bound: map<string, real>, truncated: bool)
    requires d.Valid() && BestFirst(View(d.backward, cone, scope), Members(anchorIDs), cap, kept, bound, truncated)
    ensures KeepsStrongest(d.log, cone, scope, anchorIDs, kept, bound, truncated)
  {
    var g, anchors := View(d.backward, cone, scope), Members(anchorIDs);
    forall x | x in kept
      ensures exists p :: EdgePath(d.log, cone, scope, anchorIDs, x, p) && PathStrength(p) == bound[x]
    {
      assert Strongest(g, anchors, x, bound[x]);
      var p := StrongestPath(d, cone, scope, anchorIDs, x, bound[x]);
    }
    forall x, p | x in kept && EdgePath(d.log, cone, scope, anchorIDs, x, p) ensures PathStrength(p) <= bound[x] {
      PathIsBounded(d, cone, scope, anchorIDs, x, p, bound[x]);
    }
    forall x, p, k | x !in kept && x !in anchorIDs && EdgePath(d.log, cone, scope, anchorIDs, x, p) && k in kept
      ensures PathStrength(p) <= bound[k]
    {
      DroppedIsWeaker(d, cone, scope, anchorIDs, kept, bound, x, p, k);
    }
    if !truncated {
      forall x | Feeds(d.log, cone, scope, anchorIDs, x) ensures x in kept {
        FeederIsReached(d, cone, scope, anchorIDs, x);
      }
    }
  }

  lemma StrongestPath(d: Dag, cone: string, scope: Scope, anchorIDs: seq<string>, x: string, b: real)
    returns (p: seq<Edge>)
    requires d.Valid() && Strongest(View(d.backward, cone, scope), Members(anchorIDs), x, b)
    ensures EdgePath(d.log, cone, scope, anchorIDs, x, p) && PathStrength(p) == b
  {
    var g, anchors := View(d.backward, cone, scope), Members(anchorIDs);
    var t :| Trail(g, anchors, x, t) && Strength(g, t) == b;
    p := TrailIsPath(d, cone, scope, anchorIDs, x, t);
  }

  lemma PathIsBounded(d: Dag, cone: string, scope: Scope, anchorIDs: seq<string>, x: string, p: seq<Edge>, b: real)
    requires d.Valid() && Strongest(View(d.backward, cone, scope), Members(anchorIDs), x, b)
    requires EdgePath(d.log, cone, scope, anchorIDs, x, p)
    ensures PathStrength(p) <= b
  {
    var t := PathIsTrail(d, cone, scope, anchorIDs, x, p);
  }

  lemma DroppedIsWeaker(d: Dag, cone: string, scope: Scope, anchorIDs: seq<string>, kept: seq<string>,
                        bound: map<string, real>, x: string, p: seq<Edge>, k: string)
    requires d.Valid() && (forall y :: y in kept ==> y in bound)
    requires KeptDominate(View(d.backward, cone, scope), Members(anchorIDs), kept, bound)
    requires x !in kept && x !in anchorIDs && EdgePath(d.log, cone, scope, anchorIDs, x, p) && k in kept
    ensures PathStrength(p) <= bound[k]
  {
    var t := PathIsTrail(d, cone, scope, anchorIDs, x, p);
    assert !Settled(Members(anchorIDs), kept, x);
  }

  lemma FeederIsReached(d: Dag, cone: string, scope: Scope, anchorIDs: seq<string>, x: string)
    requires d.Valid() && Feeds(d.log, cone, scope, anchorIDs, x)
    ensures x in ReachSet(View(d.backward, cone, scope), Members(anchorIDs))
  {
    var g := View(d.backward, cone, scope);
    var p :| EdgePath(d.log, cone, scope, anchorIDs, x, p);
    var t := PathIsTrail(d, cone, scope, anchorIDs, x, p);
    assert Taken(g, t[0]) in g[t[0].to];
  }
}
