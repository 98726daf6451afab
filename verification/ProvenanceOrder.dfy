/** The walk's answer depends on which edges were recorded, never on the order they were
    recorded in; and generation-ordered recording is acyclic (rrc/provenance.go). */
module ProvenanceOrder {
  import opened Dag
  import opened Provenance
  import opened ProvenanceReach
  import opened ProvenanceMass
  import opened ProvenanceKahn
  import opened ProvenanceWalk
  import opened Sorting
  import Ids

  /** The same contributions into every message, in possibly different orders. */
  ghost predicate SameEdges(g: Graph, g': Graph) {
    forall id :: multiset(In(g, id)) == multiset(In(g', id))
  }

  lemma SameMembers(g: Graph, g': Graph, id: string, c: Contribution)
    requires SameEdges(g, g')
    ensures c in In(g, id) <==> c in In(g', id)
  {
    assert c in In(g, id) <==> c in multiset(In(g, id));
    assert c in In(g', id) <==> c in multiset(In(g', id));
  }

  // ----- Recorded streams -----

  lemma {:induction false} ContributionsAppend(a: seq<Edge>, b: seq<Edge>, cone: string, scope: Scope)
    ensures Contributions(a + b, cone, scope) == Contributions(a, cone, scope) + Contributions(b, cone, scope)
  {
    if b == [] {
      assert a + b == a;
    } else {
      ContributionsAppend(a, b[..|b| - 1], cone, scope);
      assert (a + b)[..|a + b| - 1] == a + b[..|b| - 1];
    }
  }

  lemma {:induction false} ContributionsPermute(a: seq<Edge>, b: seq<Edge>, cone: string, scope: Scope)
    requires multiset(a) == multiset(b)
    ensures multiset(Contributions(a, cone, scope)) == multiset(Contributions(b, cone, scope))
    decreases |a|
  {
    if a == [] {
      assert |multiset(b)| == |b|;
    } else {
      var i := RemoveOne(a, b);
      var rest := b[..i] + b[i + 1..];
      ContributionsPermute(a[..|a| - 1], rest, cone, scope);
      ContributionsAppend(b[..i], b[i + 1..], cone, scope);
      ContributionsAppend(b[..i] + [b[i]], b[i + 1..], cone, scope);
      ContributionsAppend(b[..i], [b[i]], cone, scope);
      assert [b[i]][..0] == [];
    }
  }

  /** Two graphs built from the same edges in any two orders look the same to the walk. */
  lemma ReorderedStream(d: Dag, d': Dag, cone: string, scope: Scope)
    requires d.Valid() && d'.Valid() && multiset(d.log) == multiset(d'.log)
    ensures SameEdges(View(d.backward, cone, scope), View(d'.backward, cone, scope))
  {
    forall id
      ensures multiset(In(View(d.backward, cone, scope), id)) == multiset(In(View(d'.backward, cone, scope), id))
    {
      forall e ensures multiset(Into(d.log, id))[e] == multiset(Into(d'.log, id))[e] {
        IntoPermutation(d.log, id, e);
        IntoPermutation(d'.log, id, e);
      }
      assert Lookup(d.backward, id) == Into(d.log, id) && Lookup(d'.backward, id) == Into(d'.log, id);
      ContributionsPermute(Into(d.log, id), Into(d'.log, id), cone, scope);
    }
  }

  // ----- Reach -----

  lemma {:induction false} TrailTransfers(g: Graph, g': Graph, anchors: set<string>, v: string, p: seq<Step>)
    returns (q: seq<Step>)
    requires SameEdges(g, g') && Trail(g, anchors, v, p)
    ensures Trail(g', anchors, v, q)
    decreases p
  {
    var c, u := Taken(g, p[0]), p[0].to;
    SameMembers(g, g', u, c);
    var k :| 0 <= k < |In(g', u)| && In(g', u)[k] == c;
    if |p| == 1 {
      q := [Step(u, k)];
    } else {
      var tail := TrailTransfers(g, g', anchors, u, p[1..]);
      q := [Step(u, k)] + tail;
      assert q[1..] == tail;
    }
  }

  lemma ReachTransfers(g: Graph, g': Graph, anchors: set<string>)
    requires SameEdges(g, g')
    ensures ReachSet(g, anchors) <= ReachSet(g', anchors)
  {
    forall v | v in ReachSet(g, anchors) ensures v in ReachSet(g', anchors) {
      var p :| Trail(g, anchors, v, p);
      var q := TrailTransfers(g, g', anchors, v, p);
      ReachSetIsComplete(g', anchors, v);
    }
  }

  lemma OfferedTransfers(g: Graph, g': Graph, anchors: set<string>, order: seq<string>,
                         best: map<string, real>, best': map<string, real>, x: string, b: real)
    requires SameEdges(g, g') && SameOn(order, best, best')
    requires Offered(g, anchors, order, best, x, b)
    ensures Offered(g', anchors, order, best', x, b)
  {
    var u, c :| Settled(anchors, order, u) && c in In(g, u) && Offer(Passes(anchors, best, u), c) == BoundEntry(x, b);
    SameMembers(g, g', u, c);
    assert Passes(anchors, best', u) == Passes(anchors, best, u);
  }

  lemma NextIsUnique(g: Graph, g': Graph, anchors: set<string>, order: seq<string>,
                     best: map<string, real>, best': map<string, real>, v: string, v': string)
    requires SameEdges(g, g') && SameOn(order, best, best')
    requires Next(g, anchors, order, best, v) && Next(g', anchors, order, best', v')
    ensures v == v' && best[v] == best'[v']
  {
    assert SameEdges(g', g) && SameOn(order, best', best);
    OfferedTransfers(g, g', anchors, order, best, best', v, best[v]);
    OfferedTransfers(g', g, anchors, order, best', best, v', best'[v']);
    BeforeOrders(BoundEntry(v, best[v]), BoundEntry(v', best'[v']), BoundEntry(v, best[v]));
  }

  lemma OneMoreChoice(g: Graph, g': Graph, anchors: set<string>, kept: seq<string>, kept': seq<string>,
                      best: map<string, real>, best': map<string, real>, n: nat)
    requires SameEdges(g, g') && n < |kept| && n < |kept'|
    requires Canonical(g, anchors, kept, best) && Canonical(g', anchors, kept', best')
    requires kept[..n] == kept'[..n] && SameOn(kept[..n], best, best')
    ensures kept[n] == kept'[n] && kept[n] in best && kept[n] in best' && best[kept[n]] == best'[kept[n]]
  {
    assert Next(g, anchors, kept[..n], best, kept[n]);
    assert Next(g', anchors, kept'[..n], best', kept'[n]);
    NextIsUnique(g, g', anchors, kept[..n], best, best', kept[n], kept'[n]);
  }

  /** The forced choices of the two walks coincide step by step. */
  lemma {:induction false} SameChoices(g: Graph, g': Graph, anchors: set<string>, kept: seq<string>, kept': seq<string>,
                                       best: map<string, real>, best': map<string, real>, n: nat)
    requires SameEdges(g, g') && n <= |kept| && n <= |kept'|
    requires Canonical(g, anchors, kept, best) && Canonical(g', anchors, kept', best')
    ensures kept[..n] == kept'[..n] && SameOn(kept[..n], best, best')
  {
    if n > 0 {
      SameChoices(g, g', anchors, kept, kept', best, best', n - 1);
      OneMoreChoice(g, g', anchors, kept, kept', best, best', n - 1);
      assert kept[..n] == kept[..n - 1] + [kept[n - 1]];
      assert kept'[..n] == kept'[..n - 1] + [kept'[n - 1]];
    }
  }

  lemma ReachIsOrderFree(g: Graph, g': Graph, anchors: set<string>, cap: nat, kept: seq<string>, kept': seq<string>,
                         bound: map<string, real>, bound': map<string, real>, truncated: bool, truncated': bool)
    requires SameEdges(g, g')
    requires BestFirst(g, anchors, cap, kept, bound, truncated) &&
             BestFirst(g', anchors, cap, kept', bound', truncated')
    ensures kept == kept' && truncated == truncated' && SameOn(kept, bound, bound')
  {
    ReachTransfers(g, g', anchors);
    ReachTransfers(g', g, anchors);
    assert ReachSet(g, anchors) == ReachSet(g', anchors);
    DistinctCount(kept);
    DistinctCount(kept');
    assert |kept| == |kept'|;
    SameChoices(g, g', anchors, kept, kept', bound, bound', |kept|);
    assert kept == kept[..|kept|] && kept' == kept'[..|kept|];
  }

  // ----- Mass -----

  /** What one unit of weight into `u` is worth. */
  ghost function Worth(anchors: set<string>, mass: map<string, real>, u: string): real {
    if u in anchors then 1.0 else if u in mass then mass[u] else 0.0
  }

  /** What `v` earns from the contributions `ins` into a message worth `worth`. */
  ghost function Earned(ins: seq<Contribution>, v: string, worth: real): real {
    if ins == [] then 0.0
    else Earned(ins[..|ins| - 1], v, worth) +
         (if ins[|ins| - 1].from == v then Share(ins[|ins| - 1].weight, worth) else 0.0)
  }

  lemma {:induction false} EarnedAppends(a: seq<Contribution>, b: seq<Contribution>, v: string, worth: real)
    ensures Earned(a + b, v, worth) == Earned(a, v, worth) + Earned(b, v, worth)
  {
    if b == [] {
      assert a + b == a;
    } else {
      EarnedAppends(a, b[..|b| - 1], v, worth);
      assert (a + b)[..|a + b| - 1] == a + b[..|b| - 1];
    }
  }

  lemma {:induction false} EarnedPermutes(a: seq<Contribution>, b: seq<Contribution>, v: string, worth: real)
    requires multiset(a) == multiset(b)
    ensures Earned(a, v, worth) == Earned(b, v, worth)
    decreases |a|
  {
    if a == [] {
      assert |multiset(b)| == |b|;
    } else {
      var i := RemoveOne(a, b);
      EarnedPermutes(a[..|a| - 1], b[..i] + b[i + 1..], v, worth);
      EarnedAppends(b[..i], b[i + 1..], v, worth);
      EarnedAppends(b[..i] + [b[i]], b[i + 1..], v, worth);
      EarnedAppends(b[..i], [b[i]], v, worth);
      assert [b[i]][..0] == [];
    }
  }

  lemma {:induction false} EarnsNothing(ins: seq<Contribution>, v: string, worth: real)
    requires forall i :: 0 <= i < |ins| ==> ins[i].from != v
    ensures Earned(ins, v, worth) == 0.0
  {
    if ins != [] { EarnsNothing(ins[..|ins| - 1], v, worth); }
  }

  lemma {:induction false} SumStepsAppends(g: Graph, anchors: set<string>, mass: map<string, real>, a: seq<Step>,
                                           b: seq<Step>)
    ensures SumSteps(g, anchors, mass, a + b) == SumSteps(g, anchors, mass, a) + SumSteps(g, anchors, mass, b)
  {
    if b == [] {
      assert a + b == a;
    } else {
      SumStepsAppends(g, anchors, mass, a, b[..|b| - 1]);
      assert (a + b)[..|a + b| - 1] == a + b[..|b| - 1];
    }
  }

  lemma {:induction false} SumStepsAt(g: Graph, anchors: set<string>, mass: map<string, real>, u: string, v: string,
                                      n: nat)
    requires n <= |In(g, u)|
    ensures SumSteps(g, anchors, mass, StepsAt(g, u, v, n)) == Earned(In(g, u)[..n], v, Worth(anchors, mass, u))
  {
    if n > 0 {
      SumStepsAt(g, anchors, mass, u, v, n - 1);
      EarnedSnoc(In(g, u), n - 1, v, Worth(anchors, mass, u));
      StepsAtSnoc(g, anchors, mass, u, v, n - 1);
    }
  }

  lemma StepsAtSnoc(g: Graph, anchors: set<string>, mass: map<string, real>, u: string, v: string, n: nat)
    requires n < |In(g, u)|
    ensures SumSteps(g, anchors, mass, StepsAt(g, u, v, n + 1)) ==
            SumSteps(g, anchors, mass, StepsAt(g, u, v, n)) +
            (if In(g, u)[n].from == v then Share(In(g, u)[n].weight, Worth(anchors, mass, u)) else 0.0)
  {
    if In(g, u)[n].from == v {
      assert StepsAt(g, u, v, n + 1) == StepsAt(g, u, v, n) + [Step(u, n)];
      SumStepsSnoc(g, anchors, mass, StepsAt(g, u, v, n), Step(u, n));
      ValueIsWorth(g, anchors, mass, Step(u, n));
    } else {
      assert StepsAt(g, u, v, n + 1) == StepsAt(g, u, v, n);
    }
  }

  ghost function Share(weight: real, worth: real): real {
    weight * worth
  }

  lemma EarnedSnoc(ins: seq<Contribution>, n: nat, v: string, worth: real)
    requires n < |ins|
    ensures Earned(ins[..n + 1], v, worth) ==
            Earned(ins[..n], v, worth) + (if ins[n].from == v then Share(ins[n].weight, worth) else 0.0)
  {
    assert ins[..n + 1][..n] == ins[..n];
  }

  lemma SumStepsSnoc(g: Graph, anchors: set<string>, mass: map<string, real>, steps: seq<Step>, s: Step)
    ensures SumSteps(g, anchors, mass, steps + [s]) == SumSteps(g, anchors, mass, steps) + Value(g, anchors, mass, s)
  {
    assert (steps + [s])[..|steps|] == steps;
  }

  lemma ValueIsWorth(g: Graph, anchors: set<string>, mass: map<string, real>, s: Step)
    requires Exists(g, s)
    ensures Value(g, anchors, mass, s) == Share(Taken(g, s).weight, Worth(anchors, mass, s.to))
  {
  }

  lemma SumStepsLast(g: Graph, anchors: set<string>, targets: seq<string>, mass: map<string, real>, v: string)
    requires targets != []
    ensures var u, front := targets[|targets| - 1], targets[..|targets| - 1];
            SumSteps(g, anchors, mass, StepsFrom(g, targets, v)) ==
            SumSteps(g, anchors, mass, StepsFrom(g, front, v)) + Earned(In(g, u), v, Worth(anchors, mass, u))
  {
    var u, front := targets[|targets| - 1], targets[..|targets| - 1];
    SumStepsAppends(g, anchors, mass, StepsFrom(g, front, v), StepsAt(g, u, v, |In(g, u)|));
    SumStepsAt(g, anchors, mass, u, v, |In(g, u)|);
    assert In(g, u)[..|In(g, u)|] == In(g, u);
  }

  lemma {:induction false} SumStepsSame(g: Graph, g': Graph, anchors: set<string>, targets: seq<string>,
                                        mass: map<string, real>, mass': map<string, real>, v: string)
    requires SameEdges(g, g')
    requires forall s :: s in StepsFrom(g, targets, v) ==> Worth(anchors, mass, s.to) == Worth(anchors, mass', s.to)
    ensures SumSteps(g, anchors, mass, StepsFrom(g, targets, v)) ==
            SumSteps(g', anchors, mass', StepsFrom(g', targets, v))
  {
    if targets != [] {
      var u, front := targets[|targets| - 1], targets[..|targets| - 1];
      assert targets == front + [u];
      SumStepsSame(g, g', anchors, front, mass, mass', v);
      SumStepsLast(g, anchors, targets, mass, v);
      SumStepsLast(g', anchors, targets, mass', v);
      EarnedSame(g, g', anchors, targets, mass, mass', u, v);
    }
  }

  lemma EarnedSame(g: Graph, g': Graph, anchors: set<string>, targets: seq<string>,
                   mass: map<string, real>, mass': map<string, real>, u: string, v: string)
    requires SameEdges(g, g') && u in targets
    requires forall s :: s in StepsFrom(g, targets, v) ==> Worth(anchors, mass, s.to) == Worth(anchors, mass', s.to)
    ensures Earned(In(g, u), v, Worth(anchors, mass, u)) == Earned(In(g', u), v, Worth(anchors, mass', u))
  {
    EarnedPermutes(In(g, u), In(g', u), v, Worth(anchors, mass', u));
    forall i: nat | i < |In(g, u)| && In(g, u)[i].from == v
      ensures Worth(anchors, mass, u) == Worth(anchors, mass', u)
    {
      assert Step(u, i) in StepsFrom(g, targets, v);
    }
    if Worth(anchors, mass, u) != Worth(anchors, mass', u) {
      EarnsNothing(In(g, u), v, Worth(anchors, mass, u));
      EarnsNothing(In(g, u), v, Worth(anchors, mass', u));
    }
  }

  // ----- Phase 2 in any recording order -----

  lemma StepTransfers(g: Graph, g': Graph, targets: seq<string>, v: string, s: Step) returns (s': Step)
    requires SameEdges(g, g') && s in StepsFrom(g, targets, v)
    ensures s' in StepsFrom(g', targets, v) && s'.to == s.to
  {
    SameMembers(g, g', s.to, Taken(g, s));
    var k :| 0 <= k < |In(g', s.to)| && In(g', s.to)[k] == Taken(g, s);
    s' := Step(s.to, k);
  }

  /** The first `n` messages one drain finalizes are drained by the other with the same masses. */
  lemma {:induction false} DrainAgrees(g: Graph, g': Graph, anchors: set<string>, inReach: set<string>,
                                       targets: seq<string>,
                                       mass: map<string, real>, order: seq<string>,
                                       mass': map<string, real>, order': seq<string>, n: nat)
    requires SameEdges(g, g') && n <= |order|
    requires Drained(g, anchors, inReach, targets, mass, order) && Drained(g', anchors, inReach, targets, mass', order')
    ensures forall x :: x in order[..n] ==> x in mass && x in mass' && mass[x] == mass'[x]
  {
    if n > 0 {
      DrainAgrees(g, g', anchors, inReach, targets, mass, order, mass', order', n - 1);
      var v := order[n - 1];
      assert order[..n] == order[..n - 1] + [v];
      assert RestsOn(g, anchors, targets, Members(order[..n - 1]), v) && v in Members(order);
      AlsoDrained(g, g', anchors, inReach, targets, order[..n - 1], mass', order', v);
      assert Grounded(g, anchors, targets, mass, v) && Grounded(g', anchors, targets, mass', v);
      SumStepsSame(g, g', anchors, targets, mass, mass', v);
    }
  }

  lemma AlsoDrained(g: Graph, g': Graph, anchors: set<string>, inReach: set<string>, targets: seq<string>,
                    before: seq<string>, mass': map<string, real>, order': seq<string>, v: string)
    requires SameEdges(g, g') && RestsOn(g, anchors, targets, Members(before), v) && v in inReach
    requires Drained(g', anchors, inReach, targets, mass', order') && forall x :: x in before ==> x in mass'
    ensures v in mass'
  {
    if v !in mass' {
      assert Stuck(g', anchors, targets, mass'.Keys, v);
      var s' :| s' in StepsFrom(g', targets, v) && s'.to !in anchors && s'.to !in mass';
      var s := StepTransfers(g', g, targets, v, s');
      assert false;
    }
  }

  lemma DrainIsOrderFree(g: Graph, g': Graph, anchors: set<string>, inReach: set<string>, targets: seq<string>,
                         mass: map<string, real>, order: seq<string>, mass': map<string, real>, order': seq<string>)
    requires SameEdges(g, g')
    requires Drained(g, anchors, inReach, targets, mass, order) && Drained(g', anchors, inReach, targets, mass', order')
    ensures mass == mass'
  {
    assert SameEdges(g', g);
    DrainAgrees(g, g', anchors, inReach, targets, mass, order, mass', order', |order|);
    DrainAgrees(g', g, anchors, inReach, targets, mass', order', mass, order, |order'|);
    assert order[..|order|] == order && order'[..|order'|] == order';
    assert forall x :: x in mass ==> x in Members(order);
    assert forall x :: x in mass' ==> x in Members(order');
  }

  lemma {:induction false} FinishIsOrderFree(g: Graph, g': Graph, anchors: set<string>, targets: seq<string>,
                                             members: seq<string>,
                                             mass: map<string, real>)
    requires SameEdges(g, g')
    ensures Finish(g, anchors, targets, members, mass) == Finish(g', anchors, targets, members, mass)
  {
    if members != [] {
      var front := members[..|members| - 1];
      FinishIsOrderFree(g, g', anchors, targets, front, mass);
      var before := Finish(g, anchors, targets, front, mass);
      SumStepsSame(g, g', anchors, targets, before, before, members[|members| - 1]);
    }
  }

  lemma MassIsOrderFree(g: Graph, g': Graph, anchors: set<string>, inReach: set<string>, targets: seq<string>,
                        members: seq<string>,
                        mass: map<string, real>, mass': map<string, real>)
    requires SameEdges(g, g')
    requires PhaseTwo(g, anchors, inReach, targets, members, mass) &&
             PhaseTwo(g', anchors, inReach, targets, members, mass')
    ensures mass == mass'
  {
    var d, o :| Drained(g, anchors, inReach, targets, d, o) && mass == Finish(g, anchors, targets, members, d);
    var d', o' :| Drained(g', anchors, inReach, targets, d', o') && mass' == Finish(g', anchors, targets, members, d');
    DrainIsOrderFree(g, g', anchors, inReach, targets, d, o, d', o');
    FinishIsOrderFree(g, g', anchors, targets, members, d);
  }

  /** Two walks over the same edges, recorded in any two orders, keep the same messages with the
      same bounds, report the same truncation and give the same masses, cycles or not. */
  lemma WalkIsOrderFree(g: Graph, g': Graph, anchorIDs: seq<string>, kept: seq<string>, kept': seq<string>,
                        bound: map<string, real>, bound': map<string, real>,
                        mass: map<string, real>, mass': map<string, real>, truncated: bool, truncated': bool)
    requires SameEdges(g, g')
    requires WalkPromise(g, anchorIDs, kept, bound, mass, truncated)
    requires WalkPromise(g', anchorIDs, kept', bound', mass', truncated')
    ensures kept == kept' && truncated == truncated' && SameOn(kept, bound, bound') && mass == mass'
  {
    var anchors := Members(anchorIDs);
    ReachIsOrderFree(g, g', anchors, REACH_CAP, kept, kept', bound, bound', truncated, truncated');
    MassIsOrderFree(g, g', anchors, Members(kept), Targets(anchorIDs, kept), Ids.Sort(kept), mass, mass');
  }

  /** Permuting the recorded edges changes nothing a walk returns. */
  lemma PermutedEdges(d: Dag, d': Dag, anchorIDs: seq<string>, cone: string, scope: Scope, kept: seq<string>,
                      kept': seq<string>,
                      bound: map<string, real>, bound': map<string, real>,
                      mass: map<string, real>, mass': map<string, real>, truncated: bool, truncated': bool)
    requires d.Valid() && d'.Valid() && multiset(d.log) == multiset(d'.log)
    requires WalkPromise(View(d.backward, cone, scope), anchorIDs, kept, bound, mass, truncated)
    requires WalkPromise(View(d'.backward, cone, scope), anchorIDs, kept', bound', mass', truncated')
    ensures mass == mass' && truncated == truncated' && kept == kept'
  {
    ReorderedStream(d, d', cone, scope);
    WalkIsOrderFree(View(d.backward, cone, scope), View(d'.backward, cone, scope), anchorIDs, kept, kept', bound,
                    bound',
                    mass, mass', truncated, truncated');
  }

  // ----- Recording order makes provenance acyclic -----

  /** Each recorded turn is newer than everything that fed it. */
  ghost predicate GenerationOrdered(log: seq<Edge>, age: string -> int) {
    forall e :: e in log && e.source == EdgeSource.Provenance ==> age(e.from) < age(e.to)
  }

  lemma GenerationOrderIsAcyclic(d: Dag, cone: string, scope: Scope, anchors: set<string>, targets: seq<string>,
                                 age: string -> int)
    requires d.Valid() && GenerationOrdered(d.log, age)
    ensures Acyclic(View(d.backward, cone, scope), anchors, targets)
  {
    var g := View(d.backward, cone, scope);
    forall u, c | u in targets && u !in anchors && c in In(g, u) ensures age(c.from) < age(u) {
      assert Lookup(d.backward, u) == Into(d.log, u);
      var e := ContributionIsEdge(Into(d.log, u), cone, scope, c);
      IntoIsLogged(d.log, u, e);
    }
    assert Ranked(g, anchors, targets, age);
  }
}
