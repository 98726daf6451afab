/** The worklist that finalizes kept messages once all their kept dependents are final
    (rrc/provenance.go, phase 2). */
module ProvenanceKahn {
  import opened Dag
  import opened Provenance
  import opened ProvenanceMass
  import opened Sorting
  import Ids

  datatype Out = Out(to: string, weight: real)

  // ----- Counting the dependents still open -----

  ghost function CountFrom(ins: seq<Contribution>, x: string): nat {
    if ins == [] then 0
    else CountFrom(ins[..|ins| - 1], x) + (if ins[|ins| - 1].from == x then 1 else 0)
  }

  /** How many edges of `x` lead to a kept message that is not final yet. */
  ghost function Open(g: Graph, anchors: set<string>, targets: seq<string>, done: set<string>, x: string): nat {
    if targets == [] then 0
    else
      var u := targets[|targets| - 1];
      Open(g, anchors, targets[..|targets| - 1], done, x) +
      (if u !in anchors && u !in done then CountFrom(In(g, u), x) else 0)
  }

  lemma {:induction false} CountFromZero(ins: seq<Contribution>, x: string)
    ensures CountFrom(ins, x) == 0 <==> forall c :: c in ins ==> c.from != x
  {
    if ins != [] {
      CountFromZero(ins[..|ins| - 1], x);
      assert ins == ins[..|ins| - 1] + [ins[|ins| - 1]];
    }
  }

  lemma {:induction false} CountFromSplit(ins: seq<Contribution>, j: nat, x: string)
    requires j <= |ins|
    ensures CountFrom(ins, x) == CountFrom(ins[..j], x) + CountFrom(ins[j..], x)
  {
    if j == |ins| {
      assert ins[..j] == ins;
    } else {
      CountFromSplit(ins[..|ins| - 1], j, x);
      assert ins[..|ins| - 1][..j] == ins[..j];
      assert ins[j..][..|ins[j..]| - 1] == ins[..|ins| - 1][j..];
    }
  }

  /** No edge of `x` is open exactly when each leads to an anchor or to a final message. */
  lemma {:induction false} OpenZero(g: Graph, anchors: set<string>, targets: seq<string>, done: set<string>, x: string)
    ensures Open(g, anchors, targets, done, x) == 0 <==>
              forall s :: s in StepsFrom(g, targets, x) ==> s.to in anchors || s.to in done
  {
    if targets != [] {
      var u, front := targets[|targets| - 1], targets[..|targets| - 1];
      assert targets == front + [u];
      OpenZero(g, anchors, front, done, x);
      CountFromZero(In(g, u), x);
      if c :| c in In(g, u) && c.from == x {
        var k :| 0 <= k < |In(g, u)| && In(g, u)[k] == c;
        assert Step(u, k) in StepsFrom(g, targets, x);
      }
    }
  }

  lemma {:induction false} OpenWithout(g: Graph, anchors: set<string>, targets: seq<string>, done: set<string>,
                                       x: string, v: string)
    requires v !in targets
    ensures Open(g, anchors, targets, done, x) == Open(g, anchors, targets, done + {v}, x)
  {
    if targets != [] {
      OpenWithout(g, anchors, targets[..|targets| - 1], done, x, v);
    }
  }

  /** Finalizing `v` closes exactly the edges recorded into it. */
  lemma {:induction false} OpenDrops(g: Graph, anchors: set<string>, targets: seq<string>, done: set<string>,
                                     x: string, v: string)
    requires multiset(targets)[v] == 1 && v !in anchors && v !in done
    ensures Open(g, anchors, targets, done, x) ==
            Open(g, anchors, targets, done + {v}, x) + CountFrom(In(g, v), x)
  {
    var u, front := targets[|targets| - 1], targets[..|targets| - 1];
    assert targets == front + [u];
    if u == v {
      assert v !in multiset(front);
      OpenWithout(g, anchors, front, done, x, v);
    } else {
      OpenDrops(g, anchors, front, done, x, v);
    }
  }

  // ----- Building the outgoing lists -----

  function Outs(outgoing: map<string, seq<Out>>, id: string): seq<Out> {
    if id in outgoing then outgoing[id] else []
  }

  function Pending(pending: map<string, int>, id: string): int {
    if id in pending then pending[id] else 0
  }

  ghost function OutList(g: Graph, steps: seq<Step>): (outs: seq<Out>)
    ensures |outs| == |steps|
  {
    if steps == [] then []
    else
      var s := steps[|steps| - 1];
      OutList(g, steps[..|steps| - 1]) + [Out(s.to, Weight(g, s))]
  }

  lemma OutListSnoc(g: Graph, steps: seq<Step>, s: Step)
    ensures OutList(g, steps + [s]) == OutList(g, steps) + [Out(s.to, Weight(g, s))]
  {
    assert (steps + [s])[..|steps|] == steps;
  }

  /** The outgoing lists hold exactly the recorded edges into the targets. */
  ghost predicate Wired(g: Graph, inReach: set<string>, targets: seq<string>, outgoing: map<string, seq<Out>>) {
    forall v {:trigger Outs(outgoing, v)} :: v in inReach ==> Outs(outgoing, v) == OutList(g, StepsFrom(g, targets, v))
  }

  /** Counters agree with the edges still open, for every message not final yet. */
  ghost predicate Counted(g: Graph, anchors: set<string>, inReach: set<string>, targets: seq<string>,
                          done: set<string>, pending: map<string, int>)
  {
    forall x {:trigger CountedAt(g, anchors, targets, done, pending, x)} :: x in inReach && x !in done ==>
      CountedAt(g, anchors, targets, done, pending, x)
  }

  ghost predicate CountedAt(g: Graph, anchors: set<string>, targets: seq<string>, done: set<string>,
                            pending: map<string, int>, x: string) {
    Pending(pending, x) == Open(g, anchors, targets, done, x)
  }

  /** The lists and counters once the contributors of `targets` have been recorded. */
  ghost predicate Recorded(g: Graph, anchors: set<string>, inReach: set<string>, targets: seq<string>,
                           outgoing: map<string, seq<Out>>, pending: map<string, int>)
  {
    && Wired(g, inReach, targets, outgoing)
    && Counted(g, anchors, inReach, targets, {}, pending)
  }

  /** ... plus the first `j` contributors of `u`. */
  ghost predicate PartWired(g: Graph, inReach: set<string>, targets: seq<string>, u: string, j: nat,
                            outgoing: map<string, seq<Out>>)
    requires j <= |In(g, u)|
  {
    forall v {:trigger PartWiredAt(g, targets, u, j, outgoing, v)} :: v in inReach ==>
            PartWiredAt(g, targets, u, j, outgoing, v)
  }

  ghost predicate PartWiredAt(g: Graph, targets: seq<string>, u: string, j: nat, outgoing: map<string, seq<Out>>,
                              v: string)
    requires j <= |In(g, u)|
  {
    Outs(outgoing, v) == OutList(g, StepsFrom(g, targets, v) + StepsAt(g, u, v, j))
  }

  ghost predicate PartCounted(g: Graph, anchors: set<string>, inReach: set<string>, targets: seq<string>, u: string,
                              j: nat,
                              pending: map<string, int>)
    requires j <= |In(g, u)|
  {
    forall v {:trigger PartCountedAt(g, anchors, targets, u, j, pending, v)} :: v in inReach ==>
      PartCountedAt(g, anchors, targets, u, j, pending, v)
  }

  ghost predicate PartCountedAt(g: Graph, anchors: set<string>, targets: seq<string>, u: string, j: nat,
                                pending: map<string, int>, v: string)
    requires j <= |In(g, u)|
  {
    Pending(pending, v) == Open(g, anchors, targets, {}, v) + (if u !in anchors then CountFrom(In(g, u)[..j], v) else 0)
  }

  lemma WireOne(g: Graph, inReach: set<string>, targets: seq<string>, u: string, j: nat,
                outgoing: map<string, seq<Out>>)
    requires j < |In(g, u)| && PartWired(g, inReach, targets, u, j, outgoing)
    ensures var c := In(g, u)[j];
            if c.from in inReach
            then PartWired(g, inReach, targets, u, j + 1,
                           outgoing[c.from := Outs(outgoing, c.from) + [Out(u, c.weight)]])
            else PartWired(g, inReach, targets, u, j + 1, outgoing)
  {
    var c := In(g, u)[j];
    var outgoing' := if c.from in inReach then outgoing[c.from := Outs(outgoing, c.from) + [Out(u, c.weight)]]
        else outgoing;
    forall v | v in inReach ensures PartWiredAt(g, targets, u, j + 1, outgoing', v) {
      assert PartWiredAt(g, targets, u, j, outgoing, v);
      RecordOne(g, targets, u, v, j);
    }
  }

  lemma CountOneMore(g: Graph, anchors: set<string>, inReach: set<string>, targets: seq<string>, u: string, j: nat,
                     pending: map<string, int>)
    requires j < |In(g, u)| && PartCounted(g, anchors, inReach, targets, u, j, pending)
    ensures var c := In(g, u)[j];
            if c.from in inReach && u !in anchors
            then PartCounted(g, anchors, inReach, targets, u, j + 1, pending[c.from := Pending(pending, c.from) + 1])
            else PartCounted(g, anchors, inReach, targets, u, j + 1, pending)
  {
    var c := In(g, u)[j];
    var pending' := if c.from in inReach && u !in anchors then pending[c.from := Pending(pending, c.from) + 1]
        else pending;
    forall v | v in inReach ensures PartCountedAt(g, anchors, targets, u, j + 1, pending', v) {
      assert PartCountedAt(g, anchors, targets, u, j, pending, v);
      CountOne(In(g, u), j, v);
    }
  }

  lemma NoneRecordedYet(g: Graph, anchors: set<string>, inReach: set<string>, targets: seq<string>, u: string,
                        outgoing: map<string, seq<Out>>, pending: map<string, int>)
    requires Recorded(g, anchors, inReach, targets, outgoing, pending)
    ensures PartWired(g, inReach, targets, u, 0, outgoing)
    ensures PartCounted(g, anchors, inReach, targets, u, 0, pending)
  {
    forall v | v in inReach ensures PartWiredAt(g, targets, u, 0, outgoing, v) {
      assert StepsFrom(g, targets, v) + StepsAt(g, u, v, 0) == StepsFrom(g, targets, v);
    }
    forall v | v in inReach ensures PartCountedAt(g, anchors, targets, u, 0, pending, v) {
      assert CountedAt(g, anchors, targets, {}, pending, v);
      assert In(g, u)[..0] == [];
    }
  }

  lemma AllRecorded(g: Graph, anchors: set<string>, inReach: set<string>, targets: seq<string>, u: string,
                    outgoing: map<string, seq<Out>>, pending: map<string, int>)
    requires PartWired(g, inReach, targets, u, |In(g, u)|, outgoing)
    requires PartCounted(g, anchors, inReach, targets, u, |In(g, u)|, pending)
    ensures Recorded(g, anchors, inReach, targets + [u], outgoing, pending)
  {
    assert (targets + [u])[..|targets|] == targets;
    assert In(g, u)[..|In(g, u)|] == In(g, u);
    forall v | v in inReach ensures Outs(outgoing, v) == OutList(g, StepsFrom(g, targets + [u], v)) {
      assert PartWiredAt(g, targets, u, |In(g, u)|, outgoing, v);
    }
    forall v | v in inReach ensures CountedAt(g, anchors, targets + [u], {}, pending, v) {
      assert PartCountedAt(g, anchors, targets, u, |In(g, u)|, pending, v);
    }
  }

  /** Records one contributor of `u`. */
  method RecordContributor(ghost g: Graph, anchors: set<string>, inReach: set<string>, ghost targets: seq<string>,
                           u: string, ghost j: nat, c: Contribution, outgoing0: map<string, seq<Out>>,
                           pending0: map<string, int>)
    returns (outgoing: map<string, seq<Out>>, pending: map<string, int>)
    requires j < |In(g, u)| && c == In(g, u)[j] && inReach !! anchors && (u in anchors || u in inReach)
    requires PartWired(g, inReach, targets, u, j, outgoing0)
    requires PartCounted(g, anchors, inReach, targets, u, j, pending0)
    ensures PartWired(g, inReach, targets, u, j + 1, outgoing)
    ensures PartCounted(g, anchors, inReach, targets, u, j + 1, pending)
  {
    outgoing, pending := outgoing0, pending0;
    WireOne(g, inReach, targets, u, j, outgoing);
    CountOneMore(g, anchors, inReach, targets, u, j, pending);
    if c.from !in anchors && c.from in inReach {
      outgoing := outgoing[c.from := Outs(outgoing, c.from) + [Out(u, c.weight)]];
      if u !in anchors && u in inReach {
        pending := pending[c.from := Pending(pending, c.from) + 1];
      }
    }
  }

  method RecordTarget(ghost g: Graph, anchors: set<string>, inReach: set<string>, ghost targets: seq<string>,
                      u: string, ins: seq<Contribution>, outgoing0: map<string, seq<Out>>, pending0: map<string, int>)
    returns (outgoing: map<string, seq<Out>>, pending: map<string, int>)
    requires ins == In(g, u) && inReach !! anchors && (u in anchors || u in inReach)
    requires Recorded(g, anchors, inReach, targets, outgoing0, pending0)
    ensures Recorded(g, anchors, inReach, targets + [u], outgoing, pending)
  {
    outgoing, pending := outgoing0, pending0;
    NoneRecordedYet(g, anchors, inReach, targets, u, outgoing, pending);
    for j := 0 to |ins|
      invariant PartWired(g, inReach, targets, u, j, outgoing)
      invariant PartCounted(g, anchors, inReach, targets, u, j, pending)
    {
      outgoing, pending := RecordContributor(g, anchors, inReach, targets, u, j, ins[j], outgoing, pending);
    }
    AllRecorded(g, anchors, inReach, targets, u, outgoing, pending);
  }

  lemma RecordOne(g: Graph, targets: seq<string>, u: string, v: string, j: nat)
    requires j < |In(g, u)|
    ensures OutList(g, StepsFrom(g, targets, v) + StepsAt(g, u, v, j + 1)) ==
            OutList(g, StepsFrom(g, targets, v) + StepsAt(g, u, v, j)) +
            (if In(g, u)[j].from == v then [Out(u, In(g, u)[j].weight)] else [])
  {
    var before := StepsFrom(g, targets, v) + StepsAt(g, u, v, j);
    if In(g, u)[j].from == v {
      assert StepsFrom(g, targets, v) + StepsAt(g, u, v, j + 1) == before + [Step(u, j)];
      OutListSnoc(g, before, Step(u, j));
    } else {
      assert StepsAt(g, u, v, j + 1) == StepsAt(g, u, v, j);
    }
  }

  lemma CountOne(ins: seq<Contribution>, j: nat, v: string)
    requires j < |ins|
    ensures CountFrom(ins[..j + 1], v) == CountFrom(ins[..j], v) + (if ins[j].from == v then 1 else 0)
  {
    assert ins[..j + 1][..j] == ins[..j];
  }

  method Record(backward: map<string, seq<Edge>>, cone: string, scope: Scope,
                anchors: set<string>, inReach: set<string>, targets: seq<string>)
    returns (outgoing: map<string, seq<Out>>, pending: map<string, int>)
    requires inReach !! anchors && forall u :: u in targets ==> u in anchors || u in inReach
    ensures Recorded(View(backward, cone, scope), anchors, inReach, targets, outgoing, pending)
  {
    ghost var g := View(backward, cone, scope);
    outgoing, pending := map[], map[];
    for i := 0 to |targets|
      invariant Recorded(g, anchors, inReach, targets[..i], outgoing, pending)
    {
      var ins := ContributorsOf(Lookup(backward, targets[i]), cone, scope);
      outgoing, pending := RecordTarget(g, anchors, inReach, targets[..i], targets[i], ins, outgoing, pending);
      assert targets[..i + 1] == targets[..i] + [targets[i]];
    }
    assert targets[..|targets|] == targets;
  }

  // ----- Finalizing one message -----

  function SumOuts(outs: seq<Out>, anchors: set<string>, mass: map<string, real>): real {
    if outs == [] then 0.0
    else
      var e := outs[|outs| - 1];
      SumOuts(outs[..|outs| - 1], anchors, mass) + OutValue(e, anchors, mass)
  }

  function OutValue(e: Out, anchors: set<string>, mass: map<string, real>): real {
    if e.to in anchors then e.weight else if e.to in mass then e.weight * mass[e.to] else 0.0
  }

  lemma OutCarriesValue(g: Graph, anchors: set<string>, mass: map<string, real>, s: Step)
    ensures OutValue(Out(s.to, Weight(g, s)), anchors, mass) == Value(g, anchors, mass, s)
  {
  }

  lemma {:induction false} SumOutsIsSumSteps(g: Graph, anchors: set<string>, mass: map<string, real>, steps: seq<Step>)
    ensures SumOuts(OutList(g, steps), anchors, mass) == SumSteps(g, anchors, mass, steps)
  {
    if steps != [] {
      var outs, s := OutList(g, steps), steps[|steps| - 1];
      assert outs[|outs| - 1] == Out(s.to, Weight(g, s));
      OutCarriesValue(g, anchors, mass, s);
      assert outs[..|outs| - 1] == OutList(g, steps[..|steps| - 1]);
      SumOutsIsSumSteps(g, anchors, mass, steps[..|steps| - 1]);
    }
  }

  method AddUp(outs: seq<Out>, anchors: set<string>, mass: map<string, real>) returns (m: real)
    ensures m == SumOuts(outs, anchors, mass)
  {
    m := 0.0;
    for i := 0 to |outs|
      invariant m == SumOuts(outs[..i], anchors, mass)
    {
      assert outs[..i + 1][..i] == outs[..i];
      if outs[i].to in anchors {
        m := m + outs[i].weight;
      } else if outs[i].to in mass {
        m := m + outs[i].weight * mass[outs[i].to];
      }
    }
    assert outs[..|outs|] == outs;
  }

  /** Closes the edges into `v` that start at messages not final yet; reports whose last edge closed. */
  method Release(ghost g: Graph, ghost anchors: set<string>, inReach: set<string>, ghost targets: seq<string>,
                 v: string, ins: seq<Contribution>, done: set<string>, pending0: map<string, int>)
    returns (pending: map<string, int>, freed: seq<string>)
    requires ins == In(g, v) && v in inReach && v !in anchors && multiset(targets)[v] == 1
    requires v in done && Counted(g, anchors, inReach, targets, done - {v}, pending0)
    ensures Counted(g, anchors, inReach, targets, done, pending)
    ensures forall x :: x in freed ==> x in inReach && x !in done && Pending(pending, x) == 0
    ensures forall x :: x in inReach && x !in done && Pending(pending, x) == 0 ==>
                          Pending(pending0, x) == 0 || x in freed
    ensures forall x :: x in inReach && x !in done && Pending(pending0, x) == 0 ==> Pending(pending, x) == 0
  {
    pending, freed := pending0, [];
    assert done == (done - {v}) + {v};
    forall x | x in inReach && x !in done
      ensures Pending(pending0, x) == Open(g, anchors, targets, done, x) + CountFrom(ins, x)
    {
      assert CountedAt(g, anchors, targets, done - {v}, pending0, x);
      OpenDrops(g, anchors, targets, done - {v}, x, v);
    }
    for j := 0 to |ins|
      invariant forall x :: x in inReach && x !in done ==>
                    Pending(pending, x) == Pending(pending0, x) - CountFrom(ins[..j], x)
      invariant forall x :: x in freed ==> x in inReach && x !in done && Pending(pending, x) == 0
      invariant forall x :: x in inReach && x !in done && Pending(pending, x) == 0 ==>
                    Pending(pending0, x) == 0 || x in freed
    {
      var c := ins[j];
      forall x ensures CountFrom(ins[..j + 1], x) == CountFrom(ins[..j], x) + (if c.from == x then 1 else 0)
                       && CountFrom(ins[..j + 1], x) <= CountFrom(ins, x)
      {
        CountOne(ins, j, x);
        CountFromSplit(ins, j + 1, x);
      }
      if c.from in inReach && c.from !in done {
        pending := pending[c.from := Pending(pending, c.from) - 1];
        if Pending(pending, c.from) == 0 {
          freed := freed + [c.from];
        }
      }
    }
    assert ins[..|ins|] == ins;
    forall x | x in inReach && x !in done ensures CountedAt(g, anchors, targets, done, pending, x) { }
  }

  // ----- The worklist -----

  /** `x` is final for good: its equation holds and rests on final messages only. */
  ghost predicate Grounded(g: Graph, anchors: set<string>, targets: seq<string>, mass: map<string, real>, x: string) {
    && Balanced(g, anchors, targets, mass, x)
    && (forall s :: s in StepsFrom(g, targets, x) ==> s.to in anchors || s.to in mass)
  }

  lemma {:induction false} SumStepsStable(g: Graph, anchors: set<string>, mass: map<string, real>, v: string, m: real,
                                          steps: seq<Step>)
    requires v !in mass && forall s :: s in steps ==> s.to in anchors || s.to in mass
    ensures SumSteps(g, anchors, mass[v := m], steps) == SumSteps(g, anchors, mass, steps)
  {
    if steps != [] {
      assert steps[|steps| - 1] in steps && forall s :: s in steps[..|steps| - 1] ==> s in steps;
      SumStepsStable(g, anchors, mass, v, m, steps[..|steps| - 1]);
    }
  }

  lemma GroundedStable(g: Graph, anchors: set<string>, targets: seq<string>, mass: map<string, real>, v: string,
                       m: real, x: string)
    requires v !in mass && Grounded(g, anchors, targets, mass, x)
    ensures Grounded(g, anchors, targets, mass[v := m], x)
  {
    SumStepsStable(g, anchors, mass, v, m, StepsFrom(g, targets, x));
  }

  lemma FinalIsGrounded(g: Graph, anchors: set<string>, targets: seq<string>, mass: map<string, real>, v: string)
    requires v !in mass && Open(g, anchors, targets, mass.Keys, v) == 0
    ensures Grounded(g, anchors, targets, mass[v := SumSteps(g, anchors, mass, StepsFrom(g, targets, v))], v)
  {
    OpenZero(g, anchors, targets, mass.Keys, v);
    SumStepsStable(g, anchors, mass, v, SumSteps(g, anchors, mass, StepsFrom(g, targets, v)), StepsFrom(g, targets, v));
  }

  // ----- What a drained worklist leaves -----

  /** Every edge of `x` leads to an anchor or into `done`. */
  ghost predicate RestsOn(g: Graph, anchors: set<string>, targets: seq<string>, done: set<string>, x: string) {
    forall s :: s in StepsFrom(g, targets, x) ==> s.to in anchors || s.to in done
  }

  /** Some edge of `x` leads to a kept message outside `done`. */
  ghost predicate Stuck(g: Graph, anchors: set<string>, targets: seq<string>, done: set<string>, x: string) {
    exists s :: s in StepsFrom(g, targets, x) && s.to !in anchors && s.to !in done
  }

  /** Each message rests on those before it. */
  ghost predicate InOrder(g: Graph, anchors: set<string>, targets: seq<string>, order: seq<string>) {
    forall i {:trigger RestsOn(g, anchors, targets, Members(order[..i]), order[i])} ::
      0 <= i < |order| ==> RestsOn(g, anchors, targets, Members(order[..i]), order[i])
  }

  lemma OrderGrows(g: Graph, anchors: set<string>, targets: seq<string>, order: seq<string>, v: string)
    requires InOrder(g, anchors, targets, order) && RestsOn(g, anchors, targets, Members(order), v)
    ensures InOrder(g, anchors, targets, order + [v]) && Members(order + [v]) == Members(order) + {v}
  {
    var more := order + [v];
    forall i | 0 <= i < |more| ensures RestsOn(g, anchors, targets, Members(more[..i]), more[i]) {
      if i < |order| {
        assert more[..i] == order[..i] && RestsOn(g, anchors, targets, Members(order[..i]), order[i]);
      } else {
        assert more[..i] == order;
      }
    }
  }

  /** The masses the worklist assigns: each satisfies its equation on messages before it, and a
      message is left out exactly when it leads to another one left out. */
  ghost predicate Drained(g: Graph, anchors: set<string>, inReach: set<string>, targets: seq<string>,
                          mass: map<string, real>, order: seq<string>)
  {
    && mass.Keys == Members(order) && mass.Keys <= inReach
    && InOrder(g, anchors, targets, order) && AllGrounded(g, anchors, targets, mass)
    && (forall x {:trigger Stuck(g, anchors, targets, mass.Keys, x)} ::
          x in inReach && x !in mass ==> Stuck(g, anchors, targets, mass.Keys, x))
  }

  /** Leftovers are finalized one after the other with what is final by then. */
  ghost function Finish(g: Graph, anchors: set<string>, targets: seq<string>, members: seq<string>,
                        mass: map<string, real>): map<string, real>
  {
    if members == [] then mass
    else
      var before, v := Finish(g, anchors, targets, members[..|members| - 1], mass), members[|members| - 1];
      if v in before then before else before[v := SumSteps(g, anchors, before, StepsFrom(g, targets, v))]
  }

  /** Phase 2 on any graph, cyclic or not: drain, then finish the leftovers in the order of
      `members`. */
  ghost predicate PhaseTwo(g: Graph, anchors: set<string>, inReach: set<string>, targets: seq<string>,
                           members: seq<string>, mass: map<string, real>)
  {
    exists drained, order :: Drained(g, anchors, inReach, targets, drained, order) &&
                             mass == Finish(g, anchors, targets, members, drained)
  }

  ghost predicate QueueCovers(inReach: set<string>, mass: map<string, real>, pending: map<string, int>,
                              queue: seq<string>) {
    && (forall x :: x in inReach && x !in mass && Pending(pending, x) == 0 ==> x in queue)
    && (forall x :: x in queue ==> x in inReach && (x !in mass ==> Pending(pending, x) == 0))
  }

  ghost predicate AllGrounded(g: Graph, anchors: set<string>, targets: seq<string>, mass: map<string, real>) {
    forall x {:trigger Grounded(g, anchors, targets, mass, x)} :: x in mass ==> Grounded(g, anchors, targets, mass, x)
  }

  lemma GroundedExtends(g: Graph, anchors: set<string>, targets: seq<string>, mass: map<string, real>, v: string)
    requires AllGrounded(g, anchors, targets, mass)
    requires v !in mass && Open(g, anchors, targets, mass.Keys, v) == 0
    ensures AllGrounded(g, anchors, targets, mass[v := SumSteps(g, anchors, mass, StepsFrom(g, targets, v))])
  {
    var m := SumSteps(g, anchors, mass, StepsFrom(g, targets, v));
    var next := mass[v := m];
    forall x | x in next ensures Grounded(g, anchors, targets, next, x) {
      if x == v {
        FinalIsGrounded(g, anchors, targets, mass, v);
      } else {
        GroundedStable(g, anchors, targets, mass, v, m, x);
      }
    }
  }

  /** What `Finalize` reports as freed. */
  ghost predicate Frees(inReach: set<string>, mass: map<string, real>, pending0: map<string, int>,
                        pending: map<string, int>, freed: seq<string>)
  {
    && (forall x :: x in freed ==> x in inReach && x !in mass && Pending(pending, x) == 0)
    && (forall x :: x in inReach && x !in mass && Pending(pending, x) == 0 ==> Pending(pending0, x) == 0 || x in freed)
    && (forall x :: x in inReach && x !in mass && Pending(pending0, x) == 0 ==> Pending(pending, x) == 0)
  }

  lemma QueueAdvances(inReach: set<string>, mass: map<string, real>, v: string, m: real, pending0: map<string, int>,
                      pending: map<string, int>, queue: seq<string>, freed: seq<string>)
    requires queue != [] && queue[0] == v && QueueCovers(inReach, mass, pending0, queue)
    requires Frees(inReach, mass[v := m], pending0, pending, freed)
    ensures QueueCovers(inReach, mass[v := m], pending, queue[1..] + freed)
  {
    assert queue == [v] + queue[1..];
  }

  lemma QueueSkips(inReach: set<string>, mass: map<string, real>, pending: map<string, int>, queue: seq<string>)
    requires queue != [] && queue[0] in mass && QueueCovers(inReach, mass, pending, queue)
    ensures QueueCovers(inReach, mass, pending, queue[1..])
  {
    assert queue == [queue[0]] + queue[1..];
  }

  /** Ranked provenance leaves nothing off the queue. */
  lemma {:induction false} NothingLeft(g: Graph, anchors: set<string>, inReach: set<string>, targets: seq<string>,
                                       rank: string -> int, mass: map<string, real>, order: seq<string>, x: string)
    requires Ranked(g, anchors, targets, rank) && forall u :: u in targets && u !in anchors ==> u in inReach
    requires Drained(g, anchors, inReach, targets, mass, order) && x in inReach
    ensures x in mass
    decreases |Above(anchors, targets, rank, x)|
  {
    if x !in mass {
      assert Stuck(g, anchors, targets, mass.Keys, x);
      var s :| s in StepsFrom(g, targets, x) && s.to !in anchors && s.to !in mass;
      StepClimbs(g, anchors, targets, rank, x, s);
      NothingLeft(g, anchors, inReach, targets, rank, mass, order, s.to);
    }
  }

  method Finalize(ghost g: Graph, backward: map<string, seq<Edge>>, cone: string, scope: Scope,
                  anchors: set<string>, inReach: set<string>, ghost targets: seq<string>,
                  outgoing: map<string, seq<Out>>, v: string, mass0: map<string, real>, pending0: map<string, int>)
    returns (mass: map<string, real>, pending: map<string, int>, freed: seq<string>)
    requires g == View(backward, cone, scope)
    requires v in inReach && v !in mass0 && v !in anchors && multiset(targets)[v] == 1
    requires Wired(g, inReach, targets, outgoing)
    requires Counted(g, anchors, inReach, targets, mass0.Keys, pending0)
    ensures mass == mass0[v := SumSteps(g, anchors, mass0, StepsFrom(g, targets, v))]
    ensures Counted(g, anchors, inReach, targets, mass.Keys, pending)
    ensures Frees(inReach, mass, pending0, pending, freed)
  {
    var m := AddUp(Outs(outgoing, v), anchors, mass0);
    SumOutsIsSumSteps(g, anchors, mass0, StepsFrom(g, targets, v));
    mass := mass0[v := m];
    var ins := ContributorsOf(Lookup(backward, v), cone, scope);
    assert mass.Keys - {v} == mass0.Keys;
    pending, freed := Release(g, anchors, inReach, targets, v, ins, mass.Keys, pending0);
    SortMembers(Ids.AtMost, freed);
    freed := Ids.Sort(freed);
  }

  /** Finalizes the head of the queue and queues what that frees. */
  method FinalizeNext(ghost g: Graph, backward: map<string, seq<Edge>>, cone: string, scope: Scope,
                      anchors: set<string>, inReach: set<string>, ghost targets: seq<string>,
                      outgoing: map<string, seq<Out>>, queue0: seq<string>, mass0: map<string, real>,
                      pending0: map<string, int>)
    returns (mass: map<string, real>, pending: map<string, int>, queue: seq<string>)
    requires g == View(backward, cone, scope) && inReach !! anchors
    requires queue0 != [] && queue0[0] !in mass0 && multiset(targets)[queue0[0]] == 1
    requires Wired(g, inReach, targets, outgoing)
    requires Counted(g, anchors, inReach, targets, mass0.Keys, pending0)
    requires QueueCovers(inReach, mass0, pending0, queue0) && AllGrounded(g, anchors, targets, mass0)
    ensures mass.Keys == mass0.Keys + {queue0[0]} && queue0[0] in inReach
    ensures RestsOn(g, anchors, targets, mass0.Keys, queue0[0])
    ensures Counted(g, anchors, inReach, targets, mass.Keys, pending)
    ensures QueueCovers(inReach, mass, pending, queue) && AllGrounded(g, anchors, targets, mass)
  {
    var v, freed := queue0[0], [];
    assert CountedAt(g, anchors, targets, mass0.Keys, pending0, v);
    OpenZero(g, anchors, targets, mass0.Keys, v);
    GroundedExtends(g, anchors, targets, mass0, v);
    mass, pending, freed := Finalize(g, backward, cone, scope, anchors, inReach, targets, outgoing, v, mass0, pending0);
    QueueAdvances(inReach, mass0, v, mass[v], pending0, pending, queue0, freed);
    queue := queue0[1..] + freed;
  }

  method Drain(ghost g: Graph, backward: map<string, seq<Edge>>, cone: string, scope: Scope,
               anchors: set<string>, inReach: set<string>, ghost targets: seq<string>,
               outgoing: map<string, seq<Out>>, pending0: map<string, int>, queue0: seq<string>)
    returns (mass: map<string, real>, pending: map<string, int>, ghost order: seq<string>)
    requires g == View(backward, cone, scope)
    requires inReach !! anchors && forall v :: v in inReach ==> multiset(targets)[v] == 1
    requires Wired(g, inReach, targets, outgoing)
    requires Counted(g, anchors, inReach, targets, {}, pending0)
    requires QueueCovers(inReach, map[], pending0, queue0)
    ensures Counted(g, anchors, inReach, targets, mass.Keys, pending)
    ensures Drained(g, anchors, inReach, targets, mass, order)
  {
    mass, pending, order := map[], pending0, [];
    var queue := queue0;
    assert mass.Keys == {};
    while queue != []
      invariant mass.Keys <= inReach
      invariant Counted(g, anchors, inReach, targets, mass.Keys, pending)
      invariant QueueCovers(inReach, mass, pending, queue)
      invariant AllGrounded(g, anchors, targets, mass)
      invariant mass.Keys == Members(order) && InOrder(g, anchors, targets, order)
      decreases |inReach - mass.Keys|, |queue|
    {
      var v := queue[0];
      if v in mass {
        QueueSkips(inReach, mass, pending, queue);
        queue := queue[1..];
      } else {
        ghost var before := mass.Keys;
        mass, pending, queue := FinalizeNext(g, backward, cone, scope, anchors, inReach, targets, outgoing, queue,
                                             mass, pending);
        assert inReach - mass.Keys == (inReach - before) - {v};
        OrderGrows(g, anchors, targets, order, v);
        order := order + [v];
      }
    }
    forall x | x in inReach && x !in mass ensures Stuck(g, anchors, targets, mass.Keys, x) {
      StillOpen(g, anchors, inReach, targets, mass, pending, x);
    }
  }

  /** A message off the drained queue has an edge to another one off it. */
  lemma StillOpen(g: Graph, anchors: set<string>, inReach: set<string>, targets: seq<string>,
                  mass: map<string, real>, pending: map<string, int>, x: string)
    requires Counted(g, anchors, inReach, targets, mass.Keys, pending) && QueueCovers(inReach, mass, pending, [])
    requires x in inReach && x !in mass
    ensures Stuck(g, anchors, targets, mass.Keys, x)
  {
    assert CountedAt(g, anchors, targets, mass.Keys, pending, x);
    OpenZero(g, anchors, targets, mass.Keys, x);
    assert x !in [];
  }

  method FirstReady(members: seq<string>, pending: map<string, int>) returns (queue: seq<string>)
    ensures forall x :: x in queue <==> x in members && Pending(pending, x) == 0
  {
    queue := [];
    for i := 0 to |members|
      invariant forall x :: x in queue <==> x in members[..i] && Pending(pending, x) == 0
    {
      assert members[..i + 1] == members[..i] + [members[i]];
      if Pending(pending, members[i]) == 0 {
        queue := queue + [members[i]];
      }
    }
    assert members[..|members|] == members;
  }

  /** Finalizes what cycles kept off the queue, in id order. */
  method FinishLeftovers(ghost g: Graph, backward: map<string, seq<Edge>>, cone: string, scope: Scope,
                         anchors: set<string>, inReach: set<string>, ghost targets: seq<string>,
                         outgoing: map<string, seq<Out>>, members: seq<string>,
                         mass0: map<string, real>, pending0: map<string, int>)
    returns (mass: map<string, real>)
    requires g == View(backward, cone, scope)
    requires inReach !! anchors && forall v :: v in inReach ==> multiset(targets)[v] == 1
    requires Wired(g, inReach, targets, outgoing)
    requires Counted(g, anchors, inReach, targets, mass0.Keys, pending0)
    requires mass0.Keys <= inReach && forall x :: x in members <==> x in inReach
    ensures mass.Keys == inReach
    ensures forall x :: x in mass0 ==> x in mass && mass[x] == mass0[x]
    ensures mass == Finish(g, anchors, targets, members, mass0)
  {
    var pending := pending0;
    mass := mass0;
    for i := 0 to |members|
      invariant mass.Keys <= inReach
      invariant Counted(g, anchors, inReach, targets, mass.Keys, pending)
      invariant mass == Finish(g, anchors, targets, members[..i], mass0)
    {
      assert members[..i + 1][..i] == members[..i];
      if members[i] !in mass {
        var freed;
        mass, pending, freed := Finalize(g, backward, cone, scope, anchors, inReach, targets, outgoing, members[i],
                                         mass, pending);
      }
    }
    assert members[..|members|] == members;
    forall x ensures x in mass0 ==> x in mass && mass[x] == mass0[x]
      ensures x in mass <==> x in mass0 || x in members
    {
      FinishKeeps(g, anchors, targets, members, mass0, x);
    }
  }

  /** Everything the worklist starts from. */
  method Prepare(ghost g: Graph, backward: map<string, seq<Edge>>, cone: string, scope: Scope,
                 anchors: set<string>, inReach: set<string>, targets: seq<string>, members: seq<string>)
    returns (outgoing: map<string, seq<Out>>, pending: map<string, int>, queue: seq<string>)
    requires g == View(backward, cone, scope)
    requires inReach !! anchors && forall u :: u in targets ==> u in anchors || u in inReach
    requires forall x :: x in members <==> x in inReach
    ensures Wired(g, inReach, targets, outgoing)
    ensures Counted(g, anchors, inReach, targets, {}, pending)
    ensures QueueCovers(inReach, map[], pending, queue)
  {
    outgoing, pending := Record(backward, cone, scope, anchors, inReach, targets);
    queue := FirstReady(members, pending);
  }

  /** Masses of the kept messages. `kept` and the anchors are what phase 1 produced. */
  method MassOver(backward: map<string, seq<Edge>>, anchorIDs: seq<string>, cone: string, scope: Scope,
                  kept: seq<string>)
    returns (mass: map<string, real>)
    requires Distinct(kept) && forall k :: k in kept ==> k !in anchorIDs
    // Cycles or not, every kept message ends up with one mass.
    ensures mass.Keys == Members(kept)
    ensures var g, anchors, targets := View(backward, cone, scope), Members(anchorIDs), Targets(anchorIDs, kept);
            PhaseTwo(g, anchors, Members(kept), targets, Ids.Sort(kept), mass)
  {
    ghost var g := View(backward, cone, scope);
    var anchors, inReach := Members(anchorIDs), Members(kept);
    var members, targets := Ids.Sort(kept), Targets(anchorIDs, kept);
    TargetsAre(anchorIDs, kept);
    SortMembers(Ids.AtMost, kept);
    mass := MassOf(g, backward, cone, scope, anchors, inReach, targets, members);
  }

  method MassOf(ghost g: Graph, backward: map<string, seq<Edge>>, cone: string, scope: Scope,
                anchors: set<string>, inReach: set<string>, targets: seq<string>, members: seq<string>)
    returns (mass: map<string, real>)
    requires g == View(backward, cone, scope)
    requires inReach !! anchors && forall u :: u in targets ==> u in anchors || u in inReach
    requires forall v :: v in inReach ==> multiset(targets)[v] == 1
    requires forall x :: x in members <==> x in inReach
    ensures mass.Keys == inReach
    ensures PhaseTwo(g, anchors, inReach, targets, members, mass)
  {
    var outgoing, pending, queue := Prepare(g, backward, cone, scope, anchors, inReach, targets, members);
    var drained, open, order := Drain(g, backward, cone, scope, anchors, inReach, targets, outgoing, pending, queue);
    mass := FinishLeftovers(g, backward, cone, scope, anchors, inReach, targets, outgoing, members, drained, open);
    assert Drained(g, anchors, inReach, targets, drained, order);
  }

  /** Messages already final are not finalized again. */
  lemma {:induction false} FinishKeeps(g: Graph, anchors: set<string>, targets: seq<string>, members: seq<string>,
                                       mass: map<string, real>, x: string)
    ensures x in mass ==> x in Finish(g, anchors, targets, members, mass) &&
                          Finish(g, anchors, targets, members, mass)[x] == mass[x]
    ensures x in Finish(g, anchors, targets, members, mass) <==> x in mass || x in members
  {
    if members != [] {
      FinishKeeps(g, anchors, targets, members[..|members| - 1], mass, x);
      assert members == members[..|members| - 1] + [members[|members| - 1]];
    }
  }

  /** On acyclic provenance phase 2 leaves every local equation satisfied. */
  lemma AcyclicIsGrounded(g: Graph, anchors: set<string>, inReach: set<string>, targets: seq<string>,
                          members: seq<string>, mass: map<string, real>)
    requires Acyclic(g, anchors, targets) && PhaseTwo(g, anchors, inReach, targets, members, mass)
    requires forall u :: u in targets && u !in anchors ==> u in inReach
    requires forall x :: x in members ==> x in inReach
    ensures AllGrounded(g, anchors, targets, mass)
  {
    var rank: string -> int :| Ranked(g, anchors, targets, rank);
    var drained, order :| Drained(g, anchors, inReach, targets, drained, order) &&
                          mass == Finish(g, anchors, targets, members, drained);
    forall x | x in inReach ensures x in drained {
      NothingLeft(g, anchors, inReach, targets, rank, drained, order, x);
    }
    forall x ensures (x in mass <==> x in drained) && (x in drained ==> mass[x] == drained[x]) {
      FinishKeeps(g, anchors, targets, members, drained, x);
    }
    assert mass == drained;
  }

  /** Anchors and kept messages in id order: the messages whose contributors carry mass. */
  function Targets(anchorIDs: seq<string>, kept: seq<string>): seq<string> {
    Ids.Sort(anchorIDs + Ids.Sort(kept))
  }

  lemma TargetsAre(anchorIDs: seq<string>, kept: seq<string>)
    requires Distinct(kept) && forall k :: k in kept ==> k !in anchorIDs
    ensures forall u :: u in Targets(anchorIDs, kept) <==> u in anchorIDs || u in kept
    ensures forall k :: k in kept ==> multiset(Targets(anchorIDs, kept))[k] == 1
    ensures Distinct(anchorIDs) ==> Distinct(Targets(anchorIDs, kept))
  {
    SortMembers(Ids.AtMost, kept);
    SortMembers(Ids.AtMost, anchorIDs + Ids.Sort(kept));
    JoinedCounts(anchorIDs, kept, Targets(anchorIDs, kept));
  }

  lemma JoinedCounts(a: seq<string>, b: seq<string>, joined: seq<string>)
    requires multiset(joined) == multiset(a) + multiset(b)
    requires Distinct(b) && forall k :: k in b ==> k !in a
    ensures forall u :: u in joined <==> u in a || u in b
    ensures forall k :: k in b ==> multiset(joined)[k] == 1
    ensures Distinct(a) ==> Distinct(joined)
  {
    DistinctIsOnce(b);
    DistinctIsOnce(a);
    DistinctIsOnce(joined);
    forall u ensures u in joined <==> u in a || u in b {
      assert u in joined <==> u in multiset(joined);
      assert u in a <==> u in multiset(a);
      assert u in b <==> u in multiset(b);
    }
  }
}
