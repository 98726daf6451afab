/** Phase 2 of the provenance walk: exact path-sum mass over the kept subgraph, finalized in
    Kahn order (rrc/provenance.go). */
module ProvenanceMass {
  import opened Provenance
  import opened Sorting

  // ----- Reference semantics: enumerate every trail, add up the products -----

  /** The contributions of `v` into `u` among the first `n` recorded for `u`. */
  ghost function StepsAt(g: Graph, u: string, v: string, n: nat): (steps: seq<Step>)
    requires n <= |In(g, u)|
    ensures forall s :: s in steps <==> s.to == u && s.k < n && In(g, u)[s.k].from == v
  {
    if n == 0 then []
    else
      StepsAt(g, u, v, n - 1) + (if In(g, u)[n - 1].from == v then [Step(u, n - 1)] else [])
  }

  /** The contributions of `v` into the targets. */
  ghost function StepsFrom(g: Graph, targets: seq<string>, v: string): (steps: seq<Step>)
    ensures forall s :: s in steps <==> s.to in targets && Exists(g, s) && Taken(g, s).from == v
  {
    if targets == [] then []
    else
      var u := targets[|targets| - 1];
      assert targets == targets[..|targets| - 1] + [u];
      StepsFrom(g, targets[..|targets| - 1], v) + StepsAt(g, u, v, |In(g, u)|)
  }

  /** A trail from `v` through kept messages that stops at the first anchor it meets. */
  ghost predicate KeptTrail(g: Graph, anchors: set<string>, targets: seq<string>, v: string, p: seq<Step>)
    decreases p
  {
    && p != [] && p[0].to in targets && Exists(g, p[0]) && Taken(g, p[0]).from == v
    && (if p[0].to in anchors then |p| == 1 else KeptTrail(g, anchors, targets, p[0].to, p[1..]))
  }

  ghost function Prepend(s: Step, ps: seq<seq<Step>>): (r: seq<seq<Step>>)
    ensures |r| == |ps| && forall i :: 0 <= i < |ps| ==> r[i] == [s] + ps[i]
  {
    seq(|ps|, i requires 0 <= i < |ps| => [s] + ps[i])
  }

  /** Every kept trail from `v` of at most `n + 1` edges, listed once each. */
  ghost function Trails(g: Graph, anchors: set<string>, targets: seq<string>, v: string, n: nat): seq<seq<Step>>
    decreases n, 1, 0
  {
    TrailsVia(g, anchors, targets, StepsFrom(g, targets, v), n)
  }

  /** The kept trails that start with one of `steps`. */
  ghost function TrailsVia(g: Graph, anchors: set<string>, targets: seq<string>, steps: seq<Step>,
                           n: nat): seq<seq<Step>>
    decreases n, 0, |steps|
  {
    if steps == [] then []
    else
      var s := steps[|steps| - 1];
      TrailsVia(g, anchors, targets, steps[..|steps| - 1], n) + TrailsOver(g, anchors, targets, s, n)
  }

  /** The kept trails that start with `s`. */
  ghost function TrailsOver(g: Graph, anchors: set<string>, targets: seq<string>, s: Step, n: nat): seq<seq<Step>>
    decreases n, 0, 0
  {
    if s.to in anchors then [[s]]
    else if n == 0 then []
    else Prepend(s, Trails(g, anchors, targets, s.to, n - 1))
  }

  ghost function Weight(g: Graph, s: Step): real {
    if Exists(g, s) then Taken(g, s).weight else 0.0
  }

  /** Product of the banked weights along a trail, unclamped. */
  ghost function Product(g: Graph, p: seq<Step>): real {
    if p == [] then 1.0 else Weight(g, p[0]) * Product(g, p[1..])
  }

  ghost function SumProducts(g: Graph, ps: seq<seq<Step>>): real {
    if ps == [] then 0.0 else SumProducts(g, ps[..|ps| - 1]) + Product(g, ps[|ps| - 1])
  }

  lemma {:induction false} SumProductsAppends(g: Graph, ps: seq<seq<Step>>, qs: seq<seq<Step>>)
    ensures SumProducts(g, ps + qs) == SumProducts(g, ps) + SumProducts(g, qs)
  {
    if qs == [] {
      assert ps + qs == ps;
    } else {
      SumProductsAppends(g, ps, qs[..|qs| - 1]);
      assert (ps + qs)[..|ps + qs| - 1] == ps + qs[..|qs| - 1];
    }
  }

  lemma {:induction false} SumProductsPrepends(g: Graph, s: Step, ps: seq<seq<Step>>)
    ensures SumProducts(g, Prepend(s, ps)) == Weight(g, s) * SumProducts(g, ps)
  {
    if ps != [] {
      var qs, last, front := Prepend(s, ps), ps[|ps| - 1], ps[..|ps| - 1];
      assert qs[..|qs| - 1] == Prepend(s, front) && qs[|qs| - 1] == [s] + last;
      calc {
        SumProducts(g, qs);
        SumProducts(g, Prepend(s, front)) + Product(g, [s] + last);
        { SumProductsPrepends(g, s, front); ProductPrepends(g, s, last); }
        Weight(g, s) * SumProducts(g, front) + Weight(g, s) * Product(g, last);
        { Distributes(Weight(g, s), SumProducts(g, front), Product(g, last)); }
        Weight(g, s) * (SumProducts(g, front) + Product(g, last));
        Weight(g, s) * SumProducts(g, ps);
      }
    }
  }

  lemma ProductPrepends(g: Graph, s: Step, p: seq<Step>)
    ensures Product(g, [s] + p) == Weight(g, s) * Product(g, p)
  {
    assert ([s] + p)[1..] == p;
  }

  lemma Distributes(w: real, a: real, b: real)
    ensures w * (a + b) == w * a + w * b
  {
  }

  // ----- The enumeration is exact -----

  lemma {:induction false} TrailsComplete(g: Graph, anchors: set<string>, targets: seq<string>, v: string, n: nat,
                                          p: seq<Step>)
    ensures p in Trails(g, anchors, targets, v, n) <==> KeptTrail(g, anchors, targets, v, p) && |p| <= n + 1
    decreases n, 1, 0
  {
    TrailsViaComplete(g, anchors, targets, StepsFrom(g, targets, v), n, p);
  }

  lemma {:induction false} TrailsViaComplete(g: Graph, anchors: set<string>, targets: seq<string>, steps: seq<Step>,
                                             n: nat, p: seq<Step>)
    ensures p in TrailsVia(g, anchors, targets, steps, n) <==>
              p != [] && p[0] in steps && |p| <= n + 1 &&
              (if p[0].to in anchors then |p| == 1 else KeptTrail(g, anchors, targets, p[0].to, p[1..]))
    decreases n, 0, |steps|
  {
    if steps != [] {
      var s, front := steps[|steps| - 1], steps[..|steps| - 1];
      assert steps == front + [s];
      TrailsViaComplete(g, anchors, targets, front, n, p);
      if s.to !in anchors && n > 0 {
        var ps := Trails(g, anchors, targets, s.to, n - 1);
        InPrepend(s, ps, p);
        if p != [] { TrailsComplete(g, anchors, targets, s.to, n - 1, p[1..]); }
      } else if p != [] && p[0] == s && |p| == 1 {
        assert p == [s] && p[1..] == [];
      }
    }
  }

  lemma InPrepend(s: Step, ps: seq<seq<Step>>, p: seq<Step>)
    ensures p in Prepend(s, ps) <==> p != [] && p[0] == s && p[1..] in ps
  {
    var qs := Prepend(s, ps);
    if p != [] && p[0] == s && p[1..] in ps {
      var i :| 0 <= i < |ps| && ps[i] == p[1..];
      assert qs[i] == p;
    }
    if p in qs {
      var i :| 0 <= i < |qs| && qs[i] == p;
      assert p[1..] == ps[i];
    }
  }

  lemma {:induction false} StepsAtDistinct(g: Graph, u: string, v: string, n: nat)
    requires n <= |In(g, u)|
    ensures Distinct(StepsAt(g, u, v, n))
  {
    if n > 0 { StepsAtDistinct(g, u, v, n - 1); }
  }

  lemma {:induction false} StepsFromDistinct(g: Graph, targets: seq<string>, v: string)
    requires Distinct(targets)
    ensures Distinct(StepsFrom(g, targets, v))
  {
    if targets != [] {
      var u, front := targets[|targets| - 1], targets[..|targets| - 1];
      assert targets == front + [u] && u !in front;
      StepsFromDistinct(g, front, v);
      StepsAtDistinct(g, u, v, |In(g, u)|);
      AppendDistinct(StepsFrom(g, front, v), StepsAt(g, u, v, |In(g, u)|));
    }
  }

  lemma {:induction false} TrailsDistinct(g: Graph, anchors: set<string>, targets: seq<string>, v: string, n: nat)
    requires Distinct(targets)
    ensures Distinct(Trails(g, anchors, targets, v, n))
    decreases n, 1, 0
  {
    StepsFromDistinct(g, targets, v);
    TrailsViaDistinct(g, anchors, targets, StepsFrom(g, targets, v), n);
  }

  lemma {:induction false} TrailsViaDistinct(g: Graph, anchors: set<string>, targets: seq<string>, steps: seq<Step>,
                                             n: nat)
    requires Distinct(targets) && Distinct(steps)
    ensures Distinct(TrailsVia(g, anchors, targets, steps, n))
    decreases n, 0, |steps|
  {
    if steps != [] {
      var s, front := steps[|steps| - 1], steps[..|steps| - 1];
      TrailsViaDistinct(g, anchors, targets, front, n);
      var rest := TrailsOver(g, anchors, targets, s, n);
      if s.to !in anchors && n > 0 {
        TrailsDistinct(g, anchors, targets, s.to, n - 1);
        PrependDistinct(s, Trails(g, anchors, targets, s.to, n - 1));
      }
      forall p | p in rest ensures p !in TrailsVia(g, anchors, targets, front, n) {
        TrailsViaComplete(g, anchors, targets, front, n, p);
        if s.to !in anchors && n > 0 { InPrepend(s, Trails(g, anchors, targets, s.to, n - 1), p); }
      }
      AppendDistinct(TrailsVia(g, anchors, targets, front, n), rest);
    }
  }

  lemma PrependDistinct(s: Step, ps: seq<seq<Step>>)
    requires Distinct(ps)
    ensures Distinct(Prepend(s, ps))
  {
    var qs := Prepend(s, ps);
    forall i, j | 0 <= i < j < |qs| ensures qs[i] != qs[j] {
      assert qs[i][1..] == ps[i] && qs[j][1..] == ps[j];
    }
  }

  // ----- Acyclic provenance: trails are short and the local equations have one solution -----

  /** Every in-scope edge between kept messages goes from an older message to a newer one. */
  ghost predicate Ranked(g: Graph, anchors: set<string>, targets: seq<string>, rank: string -> int) {
    forall u, c :: u in targets && u !in anchors && c in In(g, u) ==> rank(c.from) < rank(u)
  }

  ghost predicate Acyclic(g: Graph, anchors: set<string>, targets: seq<string>) {
    exists rank: string -> int :: Ranked(g, anchors, targets, rank)
  }

  /** The kept messages newer than `v`: what a trail from `v` may still visit. */
  ghost function Above(anchors: set<string>, targets: seq<string>, rank: string -> int, v: string): set<string> {
    set u | u in targets && u !in anchors && rank(v) < rank(u)
  }

  lemma StepClimbs(g: Graph, anchors: set<string>, targets: seq<string>, rank: string -> int, v: string, s: Step)
    requires Ranked(g, anchors, targets, rank)
    requires s.to in targets && s.to !in anchors && Exists(g, s) && Taken(g, s).from == v
    ensures |Above(anchors, targets, rank, s.to)| < |Above(anchors, targets, rank, v)|
  {
    var high, low := Above(anchors, targets, rank, s.to), Above(anchors, targets, rank, v);
    assert Taken(g, s) in In(g, s.to);
    assert s.to in low && s.to !in high && high <= low - {s.to};
    assert low == (low - {s.to} - high) + high + {s.to};
    assert |low - {s.to}| == |low| - 1;
    assert |low - {s.to}| == |high| + |low - {s.to} - high|;
  }

  lemma {:induction false} TrailsAreShort(g: Graph, anchors: set<string>, targets: seq<string>, rank: string -> int,
                                          v: string, p: seq<Step>)
    requires Ranked(g, anchors, targets, rank) && KeptTrail(g, anchors, targets, v, p)
    ensures |p| <= |Above(anchors, targets, rank, v)| + 1
    decreases p
  {
    if p[0].to !in anchors {
      StepClimbs(g, anchors, targets, rank, v, p[0]);
      TrailsAreShort(g, anchors, targets, rank, p[0].to, p[1..]);
    }
  }

  /** What one edge contributes once its target's mass is known. */
  ghost function Value(g: Graph, anchors: set<string>, mass: map<string, real>, s: Step): real {
    if s.to in anchors then Weight(g, s)
    else if s.to in mass then Weight(g, s) * mass[s.to]
    else 0.0
  }

  ghost function SumSteps(g: Graph, anchors: set<string>, mass: map<string, real>, steps: seq<Step>): real {
    if steps == [] then 0.0
    else SumSteps(g, anchors, mass, steps[..|steps| - 1]) + Value(g, anchors, mass, steps[|steps| - 1])
  }

  /** The mass of `v` is the sum of what its edges carry. */
  ghost predicate Balanced(g: Graph, anchors: set<string>, targets: seq<string>, mass: map<string, real>, v: string) {
    v in mass && mass[v] == SumSteps(g, anchors, mass, StepsFrom(g, targets, v))
  }

  /** The mass of the step's target is the sum over the target's own shorter trails. */
  ghost predicate Known(g: Graph, anchors: set<string>, targets: seq<string>, mass: map<string, real>, s: Step,
                        n: nat) {
    s.to !in anchors ==> n > 0 && s.to in mass && mass[s.to] == SumProducts(g, Trails(g, anchors, targets, s.to, n - 1))
  }

  ghost predicate AllKnown(g: Graph, anchors: set<string>, targets: seq<string>, mass: map<string, real>,
                           steps: seq<Step>, n: nat) {
    forall s {:trigger Known(g, anchors, targets, mass, s, n)} :: s in steps ==> Known(g, anchors, targets, mass, s, n)
  }

  lemma {:induction false} SumStepsIsTrailSum(g: Graph, anchors: set<string>, targets: seq<string>,
                                              mass: map<string, real>,
                                              steps: seq<Step>, n: nat)
    requires AllKnown(g, anchors, targets, mass, steps, n)
    ensures SumSteps(g, anchors, mass, steps) == SumProducts(g, TrailsVia(g, anchors, targets, steps, n))
    decreases |steps|
  {
    if steps != [] {
      var s, front := steps[|steps| - 1], steps[..|steps| - 1];
      assert s in steps && forall x :: x in front ==> x in steps;
      assert Known(g, anchors, targets, mass, s, n);
      SumStepsIsTrailSum(g, anchors, targets, mass, front, n);
      SumProductsAppends(g, TrailsVia(g, anchors, targets, front, n), TrailsOver(g, anchors, targets, s, n));
      ValueIsTrailSum(g, anchors, targets, mass, s, n);
    }
  }

  lemma ValueIsTrailSum(g: Graph, anchors: set<string>, targets: seq<string>, mass: map<string, real>, s: Step, n: nat)
    requires Known(g, anchors, targets, mass, s, n)
    ensures Value(g, anchors, mass, s) == SumProducts(g, TrailsOver(g, anchors, targets, s, n))
  {
    if s.to in anchors {
      SumOfOne(g, s);
    } else {
      ValueOver(g, anchors, mass, s, Trails(g, anchors, targets, s.to, n - 1));
    }
  }

  lemma ValueOver(g: Graph, anchors: set<string>, mass: map<string, real>, s: Step, ps: seq<seq<Step>>)
    requires s.to !in anchors && s.to in mass && mass[s.to] == SumProducts(g, ps)
    ensures Value(g, anchors, mass, s) == SumProducts(g, Prepend(s, ps))
  {
    SumProductsPrepends(g, s, ps);
  }

  lemma SumOfOne(g: Graph, s: Step)
    ensures SumProducts(g, [[s]]) == Weight(g, s)
  {
    assert [[s]][..0] == [];
    assert Product(g, [s]) == Weight(g, s) * Product(g, []);
  }

  /** Every kept message's mass satisfies its equation. */
  ghost predicate AllBalanced(g: Graph, anchors: set<string>, targets: seq<string>, mass: map<string, real>) {
    forall u {:trigger Balanced(g, anchors, targets, mass, u)} :: u in targets && u !in anchors ==>
            Balanced(g, anchors, targets, mass, u)
  }

  /** On ranked provenance the local equations force each mass to be the sum over all trails. */
  lemma {:induction false} BalancedIsTrailSum(g: Graph, anchors: set<string>, targets: seq<string>, rank: string -> int,
                                              mass: map<string, real>, v: string, n: nat)
    requires Ranked(g, anchors, targets, rank) && AllBalanced(g, anchors, targets, mass)
    requires v in targets && v !in anchors && |Above(anchors, targets, rank, v)| <= n
    ensures v in mass && mass[v] == SumProducts(g, Trails(g, anchors, targets, v, n))
    decreases n, 1
  {
    forall s | s in StepsFrom(g, targets, v) ensures Known(g, anchors, targets, mass, s, n) {
      StepIsKnown(g, anchors, targets, rank, mass, v, s, n);
    }
    assert Balanced(g, anchors, targets, mass, v);
    BalancedAt(g, anchors, targets, mass, v, n);
  }

  lemma {:induction false} StepIsKnown(g: Graph, anchors: set<string>, targets: seq<string>, rank: string -> int,
                                       mass: map<string, real>, v: string, s: Step, n: nat)
    requires Ranked(g, anchors, targets, rank) && AllBalanced(g, anchors, targets, mass)
    requires s.to in targets && Exists(g, s) && Taken(g, s).from == v && |Above(anchors, targets, rank, v)| <= n
    ensures Known(g, anchors, targets, mass, s, n)
    decreases n, 0
  {
    if s.to !in anchors {
      StepClimbs(g, anchors, targets, rank, v, s);
      BalancedIsTrailSum(g, anchors, targets, rank, mass, s.to, n - 1);
    }
  }

  lemma BalancedAt(g: Graph, anchors: set<string>, targets: seq<string>, mass: map<string, real>, v: string, n: nat)
    requires Balanced(g, anchors, targets, mass, v)
    requires AllKnown(g, anchors, targets, mass, StepsFrom(g, targets, v), n)
    ensures v in mass && mass[v] == SumProducts(g, Trails(g, anchors, targets, v, n))
  {
    SumStepsIsTrailSum(g, anchors, targets, mass, StepsFrom(g, targets, v), n);
  }

  /** A list of every kept trail from `v`, each exactly once. */
  ghost predicate Enumerates(g: Graph, anchors: set<string>, targets: seq<string>, v: string, ps: seq<seq<Step>>) {
    && Distinct(ps)
    && (forall p :: p in ps <==> KeptTrail(g, anchors, targets, v, p))
  }

  /** The mass is the sum, over all trails from `v` to its first anchor, of the product of the
      banked weights. */
  ghost predicate ExactMass(g: Graph, anchors: set<string>, targets: seq<string>, v: string, m: real) {
    exists ps :: Enumerates(g, anchors, targets, v, ps) && m == SumProducts(g, ps)
  }

  lemma BalancedIsExact(g: Graph, anchors: set<string>, targets: seq<string>, mass: map<string, real>, v: string)
    requires Distinct(targets) && Acyclic(g, anchors, targets)
    requires AllBalanced(g, anchors, targets, mass)
    requires v in targets && v !in anchors
    ensures v in mass && ExactMass(g, anchors, targets, v, mass[v])
  {
    var rank: string -> int :| Ranked(g, anchors, targets, rank);
    var n := |Above(anchors, targets, rank, v)|;
    var ps := Trails(g, anchors, targets, v, n);
    BalancedIsTrailSum(g, anchors, targets, rank, mass, v, n);
    TrailsDistinct(g, anchors, targets, v, n);
    forall p ensures p in ps <==> KeptTrail(g, anchors, targets, v, p) {
      TrailsComplete(g, anchors, targets, v, n, p);
      if KeptTrail(g, anchors, targets, v, p) { TrailsAreShort(g, anchors, targets, rank, v, p); }
    }
    assert Enumerates(g, anchors, targets, v, ps);
    assert Balanced(g, anchors, targets, mass, v);
  }
}
