/** What listing anchors more than once does to a walk, decided before the walk: only the weight a
    message has directly into the listed anchors matters (rrc/provenance.go). */
module ProvenanceAnchors {
  import opened Provenance
  import opened ProvenanceReach
  import opened ProvenanceMass
  import opened ProvenanceKahn
  import opened ProvenanceCycles
  import opened ProvenanceWalk
  import opened ProvenanceOrder
  import opened Sorting
  import Ids

  // ----- One equation, split into anchors and kept messages -----

  /** What `v` earns from the targets `ts`. */
  ghost function Total(g: Graph, anchors: set<string>, mass: map<string, real>, ts: seq<string>, v: string): real {
    if ts == [] then 0.0
    else
      var u := ts[|ts| - 1];
      Total(g, anchors, mass, ts[..|ts| - 1], v) + Earned(In(g, u), v, Worth(anchors, mass, u))
  }

  /** The weight `v` has directly into the listed anchors, each counted as often as it is listed. */
  ghost function Banked(g: Graph, anchorIDs: seq<string>, v: string): real {
    if anchorIDs == [] then 0.0
    else Banked(g, anchorIDs[..|anchorIDs| - 1], v) + Earned(In(g, anchorIDs[|anchorIDs| - 1]), v, 1.0)
  }

  lemma {:induction false} TotalIsSum(g: Graph, anchors: set<string>, mass: map<string, real>, ts: seq<string>,
                                      v: string)
    ensures SumSteps(g, anchors, mass, StepsFrom(g, ts, v)) == Total(g, anchors, mass, ts, v)
  {
    if ts != [] {
      TotalIsSum(g, anchors, mass, ts[..|ts| - 1], v);
      SumStepsLast(g, anchors, ts, mass, v);
    }
  }

  lemma {:induction false} TotalAppends(g: Graph, anchors: set<string>, mass: map<string, real>, a: seq<string>,
                                        b: seq<string>, v: string)
    ensures Total(g, anchors, mass, a + b, v) == Total(g, anchors, mass, a, v) + Total(g, anchors, mass, b, v)
  {
    if b == [] {
      assert a + b == a;
    } else {
      TotalAppends(g, anchors, mass, a, b[..|b| - 1], v);
      assert (a + b)[..|a + b| - 1] == a + b[..|b| - 1];
    }
  }

  lemma TotalOfOne(g: Graph, anchors: set<string>, mass: map<string, real>, u: string, v: string)
    ensures Total(g, anchors, mass, [u], v) == Earned(In(g, u), v, Worth(anchors, mass, u))
  {
    assert [u][..0] == [];
  }

  lemma {:induction false} TotalPermutes(g: Graph, anchors: set<string>, mass: map<string, real>, a: seq<string>,
                                         b: seq<string>, v: string)
    requires multiset(a) == multiset(b)
    ensures Total(g, anchors, mass, a, v) == Total(g, anchors, mass, b, v)
    decreases |a|
  {
    if a == [] {
      assert |multiset(b)| == |b|;
    } else {
      var i := RemoveOne(a, b);
      TotalPermutes(g, anchors, mass, a[..|a| - 1], b[..i] + b[i + 1..], v);
      TotalAppends(g, anchors, mass, b[..i], b[i + 1..], v);
      TotalAppends(g, anchors, mass, b[..i] + [b[i]], b[i + 1..], v);
      TotalAppends(g, anchors, mass, b[..i], [b[i]], v);
      TotalOfOne(g, anchors, mass, b[i], v);
    }
  }

  lemma {:induction false} TotalOfAnchors(g: Graph, anchors: set<string>, mass: map<string, real>, ids: seq<string>,
                                          v: string)
    requires forall a :: a in ids ==> a in anchors
    ensures Total(g, anchors, mass, ids, v) == Banked(g, ids, v)
  {
    if ids != [] {
      var front, last := ids[..|ids| - 1], ids[|ids| - 1];
      assert ids == front + [last];
      TotalOfAnchors(g, anchors, mass, front, v);
    }
  }

  /** The equation of `v`: its direct weight into the anchors, plus what kept messages pass on. */
  lemma StepSum(g: Graph, anchorIDs: seq<string>, kept: seq<string>, mass: map<string, real>, v: string)
    ensures SumSteps(g, Members(anchorIDs), mass, StepsFrom(g, Targets(anchorIDs, kept), v)) ==
            Banked(g, anchorIDs, v) + Total(g, Members(anchorIDs), mass, kept, v)
  {
    var anchors, targets := Members(anchorIDs), Targets(anchorIDs, kept);
    TotalIsSum(g, anchors, mass, targets, v);
    assert multiset(targets) == multiset(anchorIDs + Ids.Sort(kept));
    assert multiset(anchorIDs + Ids.Sort(kept)) == multiset(anchorIDs + kept);
    TotalPermutes(g, anchors, mass, targets, anchorIDs + kept, v);
    TotalAppends(g, anchors, mass, anchorIDs, kept, v);
    TotalOfAnchors(g, anchors, mass, anchorIDs, v);
  }

  // ----- Phase 2 as one pass over one sequence -----

  lemma {:induction false} DrainedIsRun(g: Graph, anchors: set<string>, targets: seq<string>, mass: map<string, real>,
                                        order: seq<string>, n: nat)
    requires InOrder(g, anchors, targets, order) && AllGrounded(g, anchors, targets, mass)
    requires mass.Keys == Members(order) && n <= |order|
    ensures var m := Finish(g, anchors, targets, order[..n], map[]);
            m.Keys == Members(order[..n]) && forall x :: x in m ==> x in mass && m[x] == mass[x]
  {
    if n > 0 {
      DrainedIsRun(g, anchors, targets, mass, order, n - 1);
      var before, v := Finish(g, anchors, targets, order[..n - 1], map[]), order[n - 1];
      assert order[..n] == order[..n - 1] + [v];
      FinishSnoc(g, anchors, targets, order[..n - 1], v, map[]);
      assert v in Members(order) && Grounded(g, anchors, targets, mass, v);
      assert RestsOn(g, anchors, targets, Members(order[..n - 1]), v);
      SumStepsAgree(g, anchors, before, mass, StepsFrom(g, targets, v));
    }
  }

  lemma {:induction false} FinishJoins(g: Graph, anchors: set<string>, targets: seq<string>, a: seq<string>,
                                       b: seq<string>,
                                       mass: map<string, real>)
    ensures Finish(g, anchors, targets, a + b, mass) ==
            Finish(g, anchors, targets, b, Finish(g, anchors, targets, a, mass))
  {
    if b == [] {
      assert a + b == a;
    } else {
      FinishJoins(g, anchors, targets, a, b[..|b| - 1], mass);
      assert (a + b)[..|a + b| - 1] == a + b[..|b| - 1];
    }
  }

  /** The masses of a pass over `f` that starts with nothing final. */
  ghost function Pass(g: Graph, anchorIDs: seq<string>, kept: seq<string>, f: seq<string>): map<string, real> {
    Finish(g, Members(anchorIDs), Targets(anchorIDs, kept), f, map[])
  }

  lemma PassKeys(g: Graph, anchorIDs: seq<string>, kept: seq<string>, f: seq<string>)
    ensures Pass(g, anchorIDs, kept, f).Keys == Members(f)
  {
    forall x ensures x in Pass(g, anchorIDs, kept, f) <==> x in f {
      FinishKeeps(g, Members(anchorIDs), Targets(anchorIDs, kept), f, map[], x);
    }
  }

  /** What one more message adds to a pass. */
  lemma PassSnoc(g: Graph, ids: seq<string>, kept: seq<string>, front: seq<string>, v: string)
    ensures var before := Pass(g, ids, kept, front);
            Pass(g, ids, kept, front + [v]) == Settle(before, v in front, v, Due(g, ids, kept, before, v))
  {
    FinishSnoc(g, Members(ids), Targets(ids, kept), front, v, map[]);
    PassKeys(g, ids, kept, front);
    DueIsSum(g, ids, kept, Pass(g, ids, kept, front), v);
  }

  lemma FinishSnoc(g: Graph, anchors: set<string>, targets: seq<string>, front: seq<string>, v: string,
                   mass: map<string, real>)
    ensures Finish(g, anchors, targets, front + [v], mass) ==
            var before := Finish(g, anchors, targets, front, mass);
            if v in before then before else before[v := SumSteps(g, anchors, before, StepsFrom(g, targets, v))]
  {
    assert (front + [v])[..|front|] == front;
  }

  ghost function Settle(before: map<string, real>, already: bool, v: string, m: real): map<string, real> {
    if already then before else before[v := m]
  }

  /** What a message gets when it is finalized after `before`. */
  ghost function Due(g: Graph, ids: seq<string>, kept: seq<string>, before: map<string, real>, v: string): real {
    Banked(g, ids, v) + Total(g, Members(ids), before, kept, v)
  }

  lemma DueIsSum(g: Graph, ids: seq<string>, kept: seq<string>, before: map<string, real>, v: string)
    ensures SumSteps(g, Members(ids), before, StepsFrom(g, Targets(ids, kept), v)) == Due(g, ids, kept, before, v)
  {
    StepSum(g, ids, kept, before, v);
  }

  /** Equal direct weights give equal passes. */
  lemma {:induction false} PassesAgree(g: Graph, ids: seq<string>, ids': seq<string>, kept: seq<string>, f: seq<string>)
    requires Members(ids) == Members(ids') && forall v :: v in f ==> Banked(g, ids, v) == Banked(g, ids', v)
    ensures Pass(g, ids, kept, f) == Pass(g, ids', kept, f)
  {
    if f != [] {
      var front, v := f[..|f| - 1], f[|f| - 1];
      assert f == front + [v] && v in f;
      PassesAgree(g, ids, ids', kept, front);
      LastAgrees(g, ids, ids', kept, front, v);
    }
  }

  lemma LastAgrees(g: Graph, ids: seq<string>, ids': seq<string>, kept: seq<string>, front: seq<string>, v: string)
    requires Members(ids) == Members(ids') && Pass(g, ids, kept, front) == Pass(g, ids', kept, front)
    requires Banked(g, ids, v) == Banked(g, ids', v)
    ensures Pass(g, ids, kept, front + [v]) == Pass(g, ids', kept, front + [v])
  {
    var before := Pass(g, ids, kept, front);
    PassSnoc(g, ids, kept, front, v);
    PassSnoc(g, ids', kept, front, v);
    assert Due(g, ids, kept, before, v) == Due(g, ids', kept, before, v);
  }

  /** Equal passes come from equal direct weights. */
  lemma {:induction false} PassesForce(g: Graph, ids: seq<string>, ids': seq<string>, kept: seq<string>, f: seq<string>)
    requires Members(ids) == Members(ids') && Pass(g, ids, kept, f) == Pass(g, ids', kept, f)
    ensures forall v :: v in f ==> Banked(g, ids, v) == Banked(g, ids', v)
  {
    if f != [] {
      var front, v := f[..|f| - 1], f[|f| - 1];
      assert f == front + [v];
      PassesForceFront(g, ids, ids', kept, front, v);
      PassesForce(g, ids, ids', kept, front);
      if v !in front { LastForced(g, ids, ids', kept, front, v); }
    }
  }

  lemma LastForced(g: Graph, ids: seq<string>, ids': seq<string>, kept: seq<string>, front: seq<string>, v: string)
    requires Members(ids) == Members(ids') && Pass(g, ids, kept, front) == Pass(g, ids', kept, front)
    requires Pass(g, ids, kept, front + [v]) == Pass(g, ids', kept, front + [v]) && v !in front
    ensures Banked(g, ids, v) == Banked(g, ids', v)
  {
    var before := Pass(g, ids, kept, front);
    PassSnoc(g, ids, kept, front, v);
    PassSnoc(g, ids', kept, front, v);
    assert Pass(g, ids, kept, front + [v])[v] == Due(g, ids, kept, before, v);
    assert Pass(g, ids', kept, front + [v])[v] == Due(g, ids', kept, before, v);
  }

  lemma PassesForceFront(g: Graph, ids: seq<string>, ids': seq<string>, kept: seq<string>, front: seq<string>,
                         v: string)
    requires Members(ids) == Members(ids') && Pass(g, ids, kept, front + [v]) == Pass(g, ids', kept, front + [v])
    ensures Pass(g, ids, kept, front) == Pass(g, ids', kept, front)
  {
    PassKeys(g, ids, kept, front);
    PassKeys(g, ids', kept, front);
    forall x | x in front ensures Pass(g, ids, kept, front)[x] == Pass(g, ids', kept, front)[x] {
      PassExtends(g, ids, kept, front, v, x);
      PassExtends(g, ids', kept, front, v, x);
    }
  }

  lemma PassExtends(g: Graph, ids: seq<string>, kept: seq<string>, front: seq<string>, v: string, x: string)
    requires x in front
    ensures x in Pass(g, ids, kept, front) && x in Pass(g, ids, kept, front + [v]) &&
            Pass(g, ids, kept, front + [v])[x] == Pass(g, ids, kept, front)[x]
  {
    PassKeys(g, ids, kept, front);
    PassKeys(g, ids, kept, front + [v]);
    PassSnoc(g, ids, kept, front, v);
  }

  // ----- Two walks with the same anchors listed differently -----

  lemma SameTargets(ids: seq<string>, ids': seq<string>, kept: seq<string>)
    requires Members(ids) == Members(ids') && Distinct(kept) && forall k :: k in kept ==> k !in ids && k !in ids'
    ensures forall u :: u in Targets(ids, kept) <==> u in Targets(ids', kept)
  {
    TargetsAre(ids, kept);
    TargetsAre(ids', kept);
    forall u ensures u in ids <==> u in ids' {
      assert u in ids <==> u in Members(ids);
      assert u in ids' <==> u in Members(ids');
    }
  }

  lemma SameCycles(g: Graph, anchors: set<string>, targets: seq<string>, targets': seq<string>, x: string)
    requires forall u :: u in targets <==> u in targets'
    ensures ReachesCycle(g, anchors, targets, x) ==> ReachesCycle(g, anchors, targets', x)
  {
    if p, i, j :| Path(g, anchors, targets, p) && p[0] == x && 0 <= i < j < |p| && p[i] == p[j] {
      forall a, b | 0 <= a && b == a + 1 && b < |p| ensures Leads(g, anchors, targets', p[a], p[b]) {
        assert Leads(g, anchors, targets, p[a], p[b]);
      }
      assert Path(g, anchors, targets', p);
    }
  }

  lemma SameOrder(g: Graph, anchors: set<string>, targets: seq<string>, targets': seq<string>, order: seq<string>)
    requires (forall u :: u in targets <==> u in targets') && InOrder(g, anchors, targets, order)
    ensures InOrder(g, anchors, targets', order)
  {
    forall i | 0 <= i < |order| ensures RestsOn(g, anchors, targets', Members(order[..i]), order[i]) {
      assert RestsOn(g, anchors, targets, Members(order[..i]), order[i]);
    }
  }

  /** A walk's masses are one pass over the drained messages in any valid order and then the rest. */
  lemma WalkIsPass(g: Graph, ids: seq<string>, kept: seq<string>, mass: map<string, real>, drained: map<string, real>,
                   order: seq<string>)
    requires var anchors, targets := Members(ids), Targets(ids, kept);
             && InOrder(g, anchors, targets, order) && AllGrounded(g, anchors, targets, drained)
             && drained.Keys == Members(order) && mass == Finish(g, anchors, targets, Ids.Sort(kept), drained)
    ensures drained == Pass(g, ids, kept, order) && mass == Pass(g, ids, kept, order + Ids.Sort(kept))
  {
    var anchors, targets := Members(ids), Targets(ids, kept);
    DrainedIsRun(g, anchors, targets, drained, order, |order|);
    assert order[..|order|] == order;
    FinishJoins(g, anchors, targets, order, Ids.Sort(kept), map[]);
  }

  /** Both walks as passes over the same sequence, whose first part is what reaches no cycle. */
  lemma SamePasses(g: Graph, ids: seq<string>, ids': seq<string>, kept: seq<string>, mass: map<string, real>,
                   mass': map<string, real>)
    returns (order: seq<string>)
    requires Members(ids) == Members(ids') && Distinct(kept) && forall k :: k in kept ==> k !in ids && k !in ids'
    requires PhaseTwo(g, Members(ids), Members(kept), Targets(ids, kept), Ids.Sort(kept), mass)
    requires PhaseTwo(g, Members(ids), Members(kept), Targets(ids', kept), Ids.Sort(kept), mass')
    ensures mass == Pass(g, ids, kept, order + Ids.Sort(kept)) && mass' == Pass(g, ids', kept, order + Ids.Sort(kept))
    ensures forall x :: x in order <==> x in kept && !ReachesCycle(g, Members(ids), Targets(ids, kept), x)
    ensures forall x :: x in order ==>
                x in mass && x in Pass(g, ids, kept, order) && mass[x] == Pass(g, ids, kept, order)[x]
    ensures forall x :: x in order ==>
                x in mass' && x in Pass(g, ids', kept, order) && mass'[x] == Pass(g, ids', kept, order)[x]
  {
    var anchors, targets, targets', all := Members(ids), Targets(ids, kept), Targets(ids', kept), Ids.Sort(kept);
    SameTargets(ids, ids', kept);
    TargetsAre(ids, kept);
    var d, o :| Drained(g, anchors, Members(kept), targets, d, o) && mass == Finish(g, anchors, targets, all, d);
    var d', o' :| Drained(g, anchors, Members(kept), targets', d', o') &&
        mass' == Finish(g, anchors, targets', all, d');
    SameDrained(g, anchors, Members(kept), targets, targets', d, o, d', o');
    DrainedInPass(g, ids, kept, mass, d, o);
    DrainedInPass(g, ids', kept, mass', d', o);
    order := o;
  }

  lemma SameDrained(g: Graph, anchors: set<string>, inReach: set<string>, targets: seq<string>, targets': seq<string>,
                    d: map<string, real>, o: seq<string>, d': map<string, real>, o': seq<string>)
    requires forall u :: u in targets <==> u in targets'
    requires forall u :: u in targets && u !in anchors ==> u in inReach
    requires Drained(g, anchors, inReach, targets, d, o) && Drained(g, anchors, inReach, targets', d', o')
    ensures d.Keys == d'.Keys && InOrder(g, anchors, targets', o)
    ensures forall x :: x in o <==> x in inReach && !ReachesCycle(g, anchors, targets, x)
  {
    forall x | x in inReach ensures (x in d <==> !ReachesCycle(g, anchors, targets, x)) && (x in d <==> x in d') {
      DrainedExactly(g, anchors, inReach, targets, d, o, x);
      DrainedExactly(g, anchors, inReach, targets', d', o', x);
      SameCycles(g, anchors, targets, targets', x);
      SameCycles(g, anchors, targets', targets, x);
    }
    SameOrder(g, anchors, targets, targets', o);
    forall x ensures x in o <==> x in d { assert x in o <==> x in Members(o); }
  }

  lemma DrainedInPass(g: Graph, ids: seq<string>, kept: seq<string>, mass: map<string, real>,
                      drained: map<string, real>,
                      order: seq<string>)
    requires var anchors, targets := Members(ids), Targets(ids, kept);
             && InOrder(g, anchors, targets, order) && AllGrounded(g, anchors, targets, drained)
             && drained.Keys == Members(order) && mass == Finish(g, anchors, targets, Ids.Sort(kept), drained)
    ensures mass == Pass(g, ids, kept, order + Ids.Sort(kept))
    ensures forall x :: x in order ==>
                x in mass && x in Pass(g, ids, kept, order) && mass[x] == Pass(g, ids, kept, order)[x]
  {
    WalkIsPass(g, ids, kept, mass, drained, order);
    forall x | x in order ensures x in mass && x in drained && mass[x] == drained[x] {
      assert x in Members(order);
      FinishKeeps(g, Members(ids), Targets(ids, kept), Ids.Sort(kept), drained, x);
    }
  }

  /** Two walks over the same graph with the same anchors, listed with different repetitions, keep
      the same messages. They give the same masses exactly when every kept message has the same
      direct weight into both lists. */
  lemma RepeatedAnchorsDecide(g: Graph, ids: seq<string>, ids': seq<string>, kept: seq<string>, kept': seq<string>,
                              bound: map<string, real>, bound': map<string, real>,
                              mass: map<string, real>, mass': map<string, real>, truncated: bool, truncated': bool)
    requires Members(ids) == Members(ids')
    requires WalkPromise(g, ids, kept, bound, mass, truncated) && WalkPromise(g, ids', kept', bound', mass', truncated')
    ensures kept == kept' && truncated == truncated'
    ensures mass == mass' <==> forall v :: v in kept ==> Banked(g, ids, v) == Banked(g, ids', v)
  {
    var order := WalksArePasses(g, ids, ids', kept, kept', bound, bound', mass, mass', truncated, truncated');
    var f := order + Ids.Sort(kept);
    forall x ensures x in f <==> x in kept { SortMembers(Ids.AtMost, kept); }
    if mass == mass' {
      PassesForce(g, ids, ids', kept, f);
    }
    if forall v :: v in kept ==> Banked(g, ids, v) == Banked(g, ids', v) {
      PassesAgree(g, ids, ids', kept, f);
    }
  }

  lemma WalksArePasses(g: Graph, ids: seq<string>, ids': seq<string>, kept: seq<string>, kept': seq<string>,
                       bound: map<string, real>, bound': map<string, real>,
                       mass: map<string, real>, mass': map<string, real>, truncated: bool, truncated': bool)
    returns (order: seq<string>)
    requires Members(ids) == Members(ids')
    requires WalkPromise(g, ids, kept, bound, mass, truncated) && WalkPromise(g, ids', kept', bound', mass', truncated')
    ensures kept == kept' && truncated == truncated' && Distinct(kept) && forall k :: k in kept ==>
                k !in ids && k !in ids'
    ensures mass == Pass(g, ids, kept, order + Ids.Sort(kept)) && mass' == Pass(g, ids', kept, order + Ids.Sort(kept))
    ensures forall x :: x in order <==> x in kept && !ReachesCycle(g, Members(ids), Targets(ids, kept), x)
    ensures forall x :: x in order ==>
                x in mass && x in Pass(g, ids, kept, order) && mass[x] == Pass(g, ids, kept, order)[x]
    ensures forall x :: x in order ==>
                x in mass' && x in Pass(g, ids', kept, order) && mass'[x] == Pass(g, ids', kept, order)[x]
  {
    ReachIsOrderFree(g, g, Members(ids), REACH_CAP, kept, kept', bound, bound', truncated, truncated');
    forall k | k in kept ensures k !in ids && k !in ids' {
      assert k in bound && k !in Members(ids);
    }
    order := SamePasses(g, ids, ids', kept, mass, mass');
  }

  // ----- Exact mass -----

  lemma {:induction false} SameTrails(g: Graph, anchors: set<string>, targets: seq<string>, targets': seq<string>,
                                      v: string, p: seq<Step>)
    requires forall u :: u in targets <==> u in targets'
    ensures KeptTrail(g, anchors, targets, v, p) <==> KeptTrail(g, anchors, targets', v, p)
    decreases p
  {
    if p != [] { SameTrails(g, anchors, targets, targets', p[0].to, p[1..]); }
  }

  lemma {:induction false} SumProductsPermute(g: Graph, a: seq<seq<Step>>, b: seq<seq<Step>>)
    requires multiset(a) == multiset(b)
    ensures SumProducts(g, a) == SumProducts(g, b)
    decreases |a|
  {
    if a == [] {
      assert |multiset(b)| == |b|;
    } else {
      var i := RemoveOne(a, b);
      SumProductsPermute(g, a[..|a| - 1], b[..i] + b[i + 1..]);
      SumProductsAppends(g, b[..i], b[i + 1..]);
      SumProductsAppends(g, b[..i] + [b[i]], b[i + 1..]);
      SumProductsAppends(g, b[..i], [b[i]]);
      assert [b[i]][..0] == [];
    }
  }

  /** A message has one exact mass. */
  lemma ExactIsUnique(g: Graph, anchors: set<string>, targets: seq<string>, targets': seq<string>, v: string, m: real,
                      m': real)
    requires forall u :: u in targets <==> u in targets'
    requires ExactMass(g, anchors, targets, v, m) && ExactMass(g, anchors, targets', v, m')
    ensures m == m'
  {
    var ps :| Enumerates(g, anchors, targets, v, ps) && m == SumProducts(g, ps);
    var qs :| Enumerates(g, anchors, targets', v, qs) && m' == SumProducts(g, qs);
    forall p ensures p in ps <==> p in qs { SameTrails(g, anchors, targets, targets', v, p); }
    SameOnce(ps, qs);
    SumProductsPermute(g, ps, qs);
  }

  lemma SameOnce(ps: seq<seq<Step>>, qs: seq<seq<Step>>)
    requires Distinct(ps) && Distinct(qs) && forall p :: p in ps <==> p in qs
    ensures multiset(ps) == multiset(qs)
  {
    DistinctIsOnce(ps);
    DistinctIsOnce(qs);
    forall p ensures multiset(ps)[p] == multiset(qs)[p] {
      assert p in ps <==> p in multiset(ps);
      assert p in qs <==> p in multiset(qs);
    }
  }

  lemma ExactMoves(g: Graph, anchors: set<string>, targets: seq<string>, targets': seq<string>, v: string, m: real)
    requires (forall u :: u in targets <==> u in targets') && ExactMass(g, anchors, targets, v, m)
    ensures ExactMass(g, anchors, targets', v, m)
  {
    var ps :| Enumerates(g, anchors, targets, v, ps) && m == SumProducts(g, ps);
    forall p
      ensures p in ps <==> KeptTrail(g, anchors, targets', v, p)
    {
      SameTrails(g, anchors, targets, targets', v, p);
    }
    assert Enumerates(g, anchors, targets', v, ps);
  }

  /** `k` is kept and reaches no cycle. */
  ghost predicate Tamed(g: Graph, ids: seq<string>, kept: seq<string>, k: string) {
    k in kept && !ReachesCycle(g, Members(ids), Targets(ids, kept), k)
  }

  /** The mass of `k` is the sum over its trails. */
  ghost predicate Exactly(g: Graph, ids: seq<string>, kept: seq<string>, mass: map<string, real>, k: string) {
    k in mass && ExactMass(g, Members(ids), Targets(ids, kept), k, mass[k])
  }

  /** With an anchor repeated, the masses off the cycles are exact exactly when each of those
      messages has the same direct weight into the list as into its distinct anchors `ids'`. */
  lemma RepeatedAnchorsExact(g: Graph, ids: seq<string>, ids': seq<string>, kept: seq<string>, kept': seq<string>,
                             bound: map<string, real>, bound': map<string, real>,
                             mass: map<string, real>, mass': map<string, real>, truncated: bool, truncated': bool)
    requires Members(ids) == Members(ids') && Distinct(ids')
    requires WalkPromise(g, ids, kept, bound, mass, truncated) && WalkPromise(g, ids', kept', bound', mass', truncated')
    ensures (forall k {:trigger Tamed(g, ids, kept, k)} :: Tamed(g, ids, kept, k) ==>
             Exactly(g, ids, kept, mass, k)) <==>
            (forall k {:trigger Tamed(g, ids, kept, k)} :: Tamed(g, ids, kept, k) ==>
             Banked(g, ids, k) == Banked(g, ids', k))
  {
    var order := WalksArePasses(g, ids, ids', kept, kept', bound, bound', mass, mass', truncated, truncated');
    forall k ensures Tamed(g, ids, kept, k) <==> k in order { }
    forall k | k in order
      ensures Exactly(g, ids, kept, mass, k) <==> Pass(g, ids, kept, order)[k] == Pass(g, ids', kept, order)[k]
    {
      ExactAgainst(g, ids, ids', kept, bound', mass, mass', truncated', k);
    }
    PassesDecide(g, ids, ids', kept, order);
  }

  lemma PassesDecide(g: Graph, ids: seq<string>, ids': seq<string>, kept: seq<string>, f: seq<string>)
    requires Members(ids) == Members(ids')
    ensures forall k :: k in f ==> k in Pass(g, ids, kept, f) && k in Pass(g, ids', kept, f)
    ensures (forall k :: k in f ==> Pass(g, ids, kept, f)[k] == Pass(g, ids', kept, f)[k]) <==>
            (forall k :: k in f ==> Banked(g, ids, k) == Banked(g, ids', k))
  {
    PassKeys(g, ids, kept, f);
    PassKeys(g, ids', kept, f);
    if forall k :: k in f ==> Pass(g, ids, kept, f)[k] == Pass(g, ids', kept, f)[k] {
      assert Pass(g, ids, kept, f) == Pass(g, ids', kept, f);
      PassesForce(g, ids, ids', kept, f);
    }
    if forall k :: k in f ==> Banked(g, ids, k) == Banked(g, ids', k) {
      PassesAgree(g, ids, ids', kept, f);
    }
  }

  lemma ExactAgainst(g: Graph, ids: seq<string>, ids': seq<string>, kept: seq<string>, bound': map<string, real>,
                     mass: map<string, real>, mass': map<string, real>, truncated': bool, k: string)
    requires Members(ids) == Members(ids') && Distinct(ids') && Distinct(kept) && forall x :: x in kept ==>
                 x !in ids && x !in ids'
    requires WalkPromise(g, ids', kept, bound', mass', truncated') && Tamed(g, ids, kept, k) && k in mass
    ensures k in mass' && (Exactly(g, ids, kept, mass, k) <==> mass[k] == mass'[k])
  {
    var anchors, targets, targets' := Members(ids), Targets(ids, kept), Targets(ids', kept);
    SameTargets(ids, ids', kept);
    SameCycles(g, anchors, targets', targets, k);
    assert Sure(g, ids', kept, bound', mass', k);
    ExactMoves(g, anchors, targets', targets, k, mass'[k]);
    if Exactly(g, ids, kept, mass, k) { ExactIsUnique(g, anchors, targets, targets', k, mass[k], mass'[k]); }
  }

  // ----- More anchors, more mass -----

  lemma {:induction false} EarnedGrows(ins: seq<Contribution>, v: string, worth: real, worth': real)
    requires (forall c :: c in ins ==> c.weight >= 0.0) && 0.0 <= worth <= worth'
    ensures 0.0 <= Earned(ins, v, worth) <= Earned(ins, v, worth')
  {
    if ins != [] {
      var front, last := ins[..|ins| - 1], ins[|ins| - 1];
      assert last in ins && forall c :: c in front ==> c in ins;
      EarnedGrows(front, v, worth, worth');
      ShareGrows(last.weight, worth, worth');
    }
  }

  lemma ShareGrows(weight: real, worth: real, worth': real)
    requires weight >= 0.0 && 0.0 <= worth <= worth'
    ensures 0.0 <= Share(weight, worth) <= Share(weight, worth')
  {
    assert weight * (worth' - worth) >= 0.0;
    assert weight * (worth' - worth) == weight * worth' - weight * worth;
  }

  lemma InNonNegative(g: Graph, u: string)
    requires NonNegative(g)
    ensures forall c :: c in In(g, u) ==> c.weight >= 0.0
  {
  }

  /** `mass'` gives every message at least what `mass` gives it. */
  ghost predicate AtLeast(mass: map<string, real>, mass': map<string, real>) {
    mass.Keys == mass'.Keys && forall x :: x in mass ==> 0.0 <= mass[x] <= mass'[x]
  }

  lemma {:induction false} TotalGrows(g: Graph, anchors: set<string>, mass: map<string, real>, mass': map<string, real>,
                                      ts: seq<string>, v: string)
    requires NonNegative(g) && AtLeast(mass, mass')
    ensures 0.0 <= Total(g, anchors, mass, ts, v) <= Total(g, anchors, mass', ts, v)
  {
    if ts != [] {
      var u := ts[|ts| - 1];
      TotalGrows(g, anchors, mass, mass', ts[..|ts| - 1], v);
      InNonNegative(g, u);
      EarnedGrows(In(g, u), v, Worth(anchors, mass, u), Worth(anchors, mass', u));
    }
  }

  lemma BankedSnoc(g: Graph, ids: seq<string>, a: string, v: string)
    ensures Banked(g, ids + [a], v) == Banked(g, ids, v) + Earned(In(g, a), v, 1.0)
  {
    assert (ids + [a])[..|ids|] == ids;
  }

  lemma BankedPermutes(g: Graph, ids: seq<string>, ids': seq<string>, v: string)
    requires multiset(ids) == multiset(ids')
    ensures Banked(g, ids, v) == Banked(g, ids', v)
  {
    TotalPermutes(g, Members(ids) + Members(ids'), map[], ids, ids', v);
    TotalOfAnchors(g, Members(ids) + Members(ids'), map[], ids, v);
    TotalOfAnchors(g, Members(ids) + Members(ids'), map[], ids', v);
  }

  lemma {:induction false} BankedGrows(g: Graph, ids: seq<string>, ids': seq<string>, v: string)
    requires NonNegative(g) && multiset(ids) <= multiset(ids')
    ensures 0.0 <= Banked(g, ids, v) <= Banked(g, ids', v)
    decreases |ids'|
  {
    if ids == [] {
      if ids' != [] {
        var front, last := ids'[..|ids'| - 1], ids'[|ids'| - 1];
        BankedGrows(g, [], front, v);
        InNonNegative(g, last);
        EarnedGrows(In(g, last), v, 1.0, 1.0);
      }
    } else {
      var front, last := ids[..|ids| - 1], ids[|ids| - 1];
      var rest := WithoutLast(ids, ids');
      BankedGrows(g, front, rest, v);
      BankedSnoc(g, front, last, v);
      BankedSnoc(g, rest, last, v);
      assert ids == front + [last];
      BankedPermutes(g, ids', rest + [last], v);
      InNonNegative(g, last);
      EarnedGrows(In(g, last), v, 1.0, 1.0);
    }
  }

  lemma WithoutLast(a: seq<string>, b: seq<string>) returns (rest: seq<string>)
    requires a != [] && multiset(a) <= multiset(b)
    ensures |rest| < |b| && multiset(a[..|a| - 1]) <= multiset(rest) && multiset(b) == multiset(rest + [a[|a| - 1]])
  {
    var x := a[|a| - 1];
    assert a == a[..|a| - 1] + [x] && x in multiset(a) && x in multiset(b);
    var i :| 0 <= i < |b| && b[i] == x;
    rest := b[..i] + b[i + 1..];
    SplitAt(b, i);
    var front := a[..|a| - 1];
    forall y ensures multiset(front)[y] <= multiset(rest)[y] {
      assert multiset(a)[y] == multiset(front)[y] + multiset{x}[y];
      assert multiset(b)[y] == multiset(rest)[y] + multiset{x}[y];
      assert multiset(a)[y] <= multiset(b)[y];
    }
  }

  lemma {:induction false} PassGrows(g: Graph, ids: seq<string>, ids': seq<string>, kept: seq<string>, f: seq<string>)
    requires NonNegative(g) && Members(ids) == Members(ids') && multiset(ids) <= multiset(ids')
    ensures AtLeast(Pass(g, ids, kept, f), Pass(g, ids', kept, f))
  {
    if f != [] {
      var front, v := f[..|f| - 1], f[|f| - 1];
      assert f == front + [v];
      PassGrows(g, ids, ids', kept, front);
      var before, before' := Pass(g, ids, kept, front), Pass(g, ids', kept, front);
      PassSnoc(g, ids, kept, front, v);
      PassSnoc(g, ids', kept, front, v);
      TotalGrows(g, Members(ids), before, before', kept, v);
      BankedGrows(g, ids, ids', v);
      SettleGrows(before, before', v in front, v, Due(g, ids, kept, before, v), Due(g, ids', kept, before', v));
    }
  }

  lemma SettleGrows(before: map<string, real>, before': map<string, real>, already: bool, v: string, m: real, m': real)
    requires AtLeast(before, before') && 0.0 <= m <= m'
    ensures AtLeast(Settle(before, already, v, m), Settle(before', already, v, m'))
  {
  }

  /** With non-negative weights, listing anchors more often never takes mass away. */
  lemma MoreAnchorsMoreMass(g: Graph, ids: seq<string>, ids': seq<string>, kept: seq<string>, kept': seq<string>,
                            bound: map<string, real>, bound': map<string, real>,
                            mass: map<string, real>, mass': map<string, real>, truncated: bool, truncated': bool)
    requires NonNegative(g) && Members(ids) == Members(ids') && multiset(ids) <= multiset(ids')
    requires WalkPromise(g, ids, kept, bound, mass, truncated) && WalkPromise(g, ids', kept', bound', mass', truncated')
    ensures AtLeast(mass, mass')
  {
    var order := WalksArePasses(g, ids, ids', kept, kept', bound, bound', mass, mass', truncated, truncated');
    PassGrows(g, ids, ids', kept, order + Ids.Sort(kept));
  }

  // ----- A repeated anchor changes masses it has no edge from -----

  lemma OneEarns(from: string, v: string, worth: real)
    ensures Earned([Contribution(from, 1.0)], v, worth) == if from == v then worth else 0.0
  {
    assert [Contribution(from, 1.0)][..0] == [];
    assert Share(1.0, worth) == worth;
  }

  /** `v` fed `u` and `u` fed the anchor `a`, with weight 1 each. */
  ghost predicate ThreeInARow(g: Graph, a: string, u: string, v: string) {
    && a != u && u != v && v != a
    && In(g, a) == [Contribution(u, 1.0)] && In(g, u) == [Contribution(v, 1.0)] && In(g, v) == []
  }

  lemma RowEquations(g: Graph, a: string, u: string, v: string, ids: seq<string>, mass: map<string, real>)
    requires ThreeInARow(g, a, u, v) && (ids == [a] || ids == [a, a]) && u in mass
    ensures Due(g, ids, [u, v], mass, u) == (if ids == [a] then 1.0 else 2.0)
    ensures Due(g, ids, [u, v], mass, v) == mass[u] && Banked(g, ids, v) == 0.0
  {
    RowBanks(g, a, u, ids);
    RowBanks(g, a, v, ids);
    RowPasses(g, Members(ids), mass, u, v, u);
    RowPasses(g, Members(ids), mass, u, v, v);
    OneEarns(u, u, 1.0);
    OneEarns(u, v, 1.0);
    OneEarns(v, u, Worth(Members(ids), mass, u));
    OneEarns(v, v, Worth(Members(ids), mass, u));
  }

  lemma RowBanks(g: Graph, a: string, x: string, ids: seq<string>)
    requires ids == [a] || ids == [a, a]
    ensures Banked(g, ids, x) == (if ids == [a] then Earned(In(g, a), x, 1.0) else Earned(In(g, a), x, 1.0) * 2.0)
  {
    BankedSnoc(g, [], a, x);
    BankedSnoc(g, [a], a, x);
    assert [a, a] == [a] + [a] && [a] == [] + [a];
  }

  lemma RowPasses(g: Graph, anchors: set<string>, mass: map<string, real>, u: string, v: string, x: string)
    ensures Total(g, anchors, mass, [u, v], x) ==
            Earned(In(g, u), x, Worth(anchors, mass, u)) + Earned(In(g, v), x, Worth(anchors, mass, v))
  {
    assert [u, v] == [u] + [v];
    TotalAppends(g, anchors, mass, [u], [v], x);
    TotalOfOne(g, anchors, mass, u, x);
    TotalOfOne(g, anchors, mass, v, x);
  }

  ghost function Row(): (g: Graph)
    ensures ThreeInARow(g, "a", "u", "v")
  {
    assert "a"[0] != "u"[0] && "u"[0] != "v"[0] && "v"[0] != "a"[0];
    map["a" := [Contribution("u", 1.0)], "u" := [Contribution("v", 1.0)]]
  }

  /** `mass` satisfies the equations of both messages of the row. */
  ghost predicate RowBalanced(ids: seq<string>, mass: map<string, real>) {
    && Balanced(Row(), Members(ids), Targets(ids, ["u", "v"]), mass, "u")
    && Balanced(Row(), Members(ids), Targets(ids, ["u", "v"]), mass, "v")
  }

  lemma RowMass(ids: seq<string>, mass: map<string, real>)
    requires (ids == ["a"] || ids == ["a", "a"]) && RowBalanced(ids, mass)
    ensures "v" in mass && mass["v"] == (if ids == ["a"] then 1.0 else 2.0) && Banked(Row(), ids, "v") == 0.0
  {
    var g := Row();
    DueIsSum(g, ids, ["u", "v"], mass, "u");
    DueIsSum(g, ids, ["u", "v"], mass, "v");
    RowEquations(g, "a", "u", "v", ids, mass);
  }

  /** Which messages of the row lead to the anchor. */
  lemma RowReach()
    ensures ReachSet(Row(), {"a"}) == {"u", "v"}
  {
    var g := Row();
    var near, far := [Step("a", 0)], [Step("u", 0), Step("a", 0)];
    assert far[1..] == near;
    assert Trail(g, {"a"}, "u", near) && Trail(g, {"a"}, "v", far);
    assert g["a"][0].from == "u" && g["u"][0].from == "v";
    assert g["a"][0] in g["a"] && g["u"][0] in g["u"];
    assert Contributors(g) == {"u", "v"};
  }

  /** The walk keeps `u`, the anchor's contributor, and then `v`. */
  lemma RowKept(g: Graph, a: string, u: string, v: string, kept: seq<string>, bound: map<string, real>, truncated: bool)
    requires ThreeInARow(g, a, u, v) && ReachSet(g, {a}) == {u, v}
    requires BestFirst(g, {a}, REACH_CAP, kept, bound, truncated)
    ensures kept == [u, v]
  {
    assert |{u, v}| == 2 && Members(kept) == {u, v};
    DistinctCount(kept);
    FirstIsNear(g, a, u, v, kept, bound);
    assert kept[1] in Members(kept) && kept == [kept[0], kept[1]];
  }

  lemma FirstIsNear(g: Graph, a: string, u: string, v: string, kept: seq<string>, bound: map<string, real>)
    requires ThreeInARow(g, a, u, v) && Canonical(g, {a}, kept, bound) && kept != []
    ensures kept[0] == u
  {
    assert Next(g, {a}, kept[..0], bound, kept[0]);
    var x, c :| Settled({a}, kept[..0], x) && c in In(g, x) &&
        Offer(Passes({a}, bound, x), c) == BoundEntry(kept[0], bound[kept[0]]);
    assert x == a;
  }

  lemma RowIsAcyclic(g: Graph, a: string, u: string, v: string, ids: seq<string>)
    requires ThreeInARow(g, a, u, v) && Members(ids) == {a}
    ensures Acyclic(g, {a}, Targets(ids, [u, v]))
  {
    var kept := [u, v];
    assert forall k :: k in ids ==> k in Members(ids);
    assert forall k :: k in kept ==> k == u || k == v;
    TargetsAre(ids, kept);
    RankedRow(g, a, u, v, Targets(ids, kept));
  }

  lemma RankedRow(g: Graph, a: string, u: string, v: string, targets: seq<string>)
    requires ThreeInARow(g, a, u, v) && forall t :: t in targets ==> t == a || t == u || t == v
    ensures Acyclic(g, {a}, targets)
  {
    var rank: string -> int := x => if x == u then 1 else 0;
    forall t, c | t in targets && t !in {a} && c in In(g, t) ensures rank(c.from) < rank(t) {
      assert t == u && c.from == v;
    }
    assert Ranked(g, {a}, targets, rank);
  }

  lemma RowIsBalanced(ids: seq<string>, kept: seq<string>, bound: map<string, real>, mass: map<string, real>,
                      truncated: bool)
    requires (ids == ["a"] || ids == ["a", "a"]) && WalkPromise(Row(), ids, kept, bound, mass, truncated)
    ensures RowBalanced(ids, mass)
  {
    assert Members(ids) == {"a"};
    RowReach();
    RowKept(Row(), "a", "u", "v", kept, bound, truncated);
    RowIsAcyclic(Row(), "a", "u", "v", ids);
    KeptIsBalanced(Row(), ids, kept, bound, mass, truncated, "u");
    KeptIsBalanced(Row(), ids, kept, bound, mass, truncated, "v");
  }

  lemma KeptIsBalanced(g: Graph, ids: seq<string>, kept: seq<string>, bound: map<string, real>,
                       mass: map<string, real>, truncated: bool, k: string)
    requires WalkPromise(g, ids, kept, bound, mass, truncated) && Acyclic(g, Members(ids), Targets(ids, kept)) &&
             k in kept
    ensures Balanced(g, Members(ids), Targets(ids, kept), mass, k)
  {
    AcyclicReachesNone(g, Members(ids), Targets(ids, kept), k);
    assert Sure(g, ids, kept, bound, mass, k);
  }

  /** Repeating the anchor doubles the mass of `v`, which has no edge into it: the change comes
      through `u`. */
  lemma RepeatedAnchorPropagates(kept: seq<string>, kept': seq<string>, bound: map<string, real>,
                                 bound': map<string, real>, mass: map<string, real>, mass': map<string, real>,
                                 truncated: bool, truncated': bool)
    requires WalkPromise(Row(), ["a"], kept, bound, mass, truncated)
    requires WalkPromise(Row(), ["a", "a"], kept', bound', mass', truncated')
    ensures "v" in mass && "v" in mass' && mass["v"] == 1.0 && mass'["v"] == 2.0
    ensures Banked(Row(), ["a"], "v") == Banked(Row(), ["a", "a"], "v") == 0.0
  {
    RowIsBalanced(["a"], kept, bound, mass, truncated);
    RowIsBalanced(["a", "a"], kept', bound', mass', truncated');
    RowMass(["a"], mass);
    RowMass(["a", "a"], mass');
  }
}
