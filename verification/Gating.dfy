/** Admission of prerequisite edges against the measured noise floor, and what it means for the
    selection that follows (rrc/prerequisite_selection.go, rrc/engine.go). */
module Gating {
  import opened Dag
  import opened Selection
  import opened Reduction
  import Detect
  import Ids
  import Sorting

  datatype Verdict = Rejected | Admitted(confidence: real)

  /** Evidence of the semantic channel; 1 is no evidence. */
  function SemanticP(sim: real, refs: seq<real>): real {
    var p := Detect.RankP(sim, refs);
    if p <= Detect.BeatAll(refs) then p else 1.0
  }

  // ----- The mass channel -----

  function MassOf(mass: map<string, real>, id: string): real {
    if id in mass then mass[id] else 0.0
  }

  /** Heavier first, smaller id on equal masses. */
  predicate Heavier(mass: map<string, real>, a: string, b: string) {
    if MassOf(mass, a) != MassOf(mass, b) then MassOf(mass, a) > MassOf(mass, b) else Ids.Less(a, b)
  }

  function NotLighter(mass: map<string, real>): (string, string) -> bool {
    (a, b) => a == b || Heavier(mass, a, b)
  }

  lemma NotLighterOrders(mass: map<string, real>)
    ensures Sorting.TotalPreorder(NotLighter(mass))
    ensures forall a, b :: NotLighter(mass)(a, b) && NotLighter(mass)(b, a) ==> a == b
  {
    var le := NotLighter(mass);
    forall a: string, b: string ensures (le(a, b) || le(b, a)) && (le(a, b) && le(b, a) ==> a == b) {
      Ids.LessTotal(a, b);
      if Ids.Less(a, b) { Ids.LessAsymmetric(a, b); }
    }
    forall a: string, b: string, c: string | le(a, b) && le(b, c) ensures le(a, c) {
      if Ids.Less(a, b) && Ids.Less(b, c) { Ids.LessTransitive(a, b, c); }
    }
  }

  /** Null probability of the message ranked `rank` (0 = heaviest) of `n` reached. */
  function MassP(rank: nat, n: nat): real {
    (rank + 1) as real / (n + 1) as real
  }

  lemma MassPOrders(rank: nat, other: nat, n: nat)
    requires rank < n && other < n
    ensures 0.0 < MassP(rank, n) < 1.0
    ensures MassP(rank, n) < MassP(other, n) <==> rank < other
  {
    Detect.DivideMonotone(0.0, (rank + 1) as real, (n + 1) as real);
    Detect.DivideMonotone((rank + 1) as real, (n + 1) as real, (n + 1) as real);
    Detect.DivideMonotone((rank + 1) as real, (other + 1) as real, (n + 1) as real);
    Detect.DivideMonotone((other + 1) as real, (rank + 1) as real, (n + 1) as real);
  }

  /** The reached messages, each once, in no particular order. */
  method KeysOf(mass: map<string, real>) returns (ids: seq<string>)
    ensures Sorting.Distinct(ids) && Sorting.Members(ids) == mass.Keys
  {
    ids := [];
    var left := mass.Keys;
    while left != {}
      invariant Sorting.Distinct(ids) && left <= mass.Keys && Sorting.Members(ids) == mass.Keys - left
      decreases |left|
    {
      var id :| id in left;
      assert id !in Sorting.Members(ids);
      assert Sorting.Members(ids + [id]) == Sorting.Members(ids) + {id};
      ids, left := ids + [id], left - {id};
    }
  }

  /** `p` gives each reached message the null probability of its place among all of them. */
  ghost predicate RankedBy(mass: map<string, real>, ranked: seq<string>, p: map<string, real>) {
    && Sorting.Distinct(ranked) && Sorting.Members(ranked) == mass.Keys == p.Keys
    && (forall i :: 0 <= i < |ranked| ==> p[ranked[i]] == MassP(i, |ranked|))
    && (forall i, j :: 0 <= i < j < |ranked| ==> Heavier(mass, ranked[i], ranked[j]))
  }

  /** Ranks the walk's masses: the places 0 to n - 1 are taken once each, heaviest first. */
  method RankMasses(mass: map<string, real>) returns (p: map<string, real>, ghost ranked: seq<string>)
    ensures RankedBy(mass, ranked, p)
    ensures forall a :: a in mass ==> a in p && 0.0 < p[a] < 1.0
    ensures forall a, b :: a in mass && b in mass ==> (p[a] < p[b] <==> Heavier(mass, a, b))
  {
    var ids := KeysOf(mass);
    var order := Sorting.Sort(NotLighter(mass), ids);
    ranked := order;
    SortedByMass(mass, ids);
    p := AssignRanks(order);
    forall a, b | a in mass && b in mass ensures 0.0 < p[a] < 1.0 && (p[a] < p[b] <==> Heavier(mass, a, b)) {
      RanksOrder(mass, order, p, a, b);
    }
  }

  method AssignRanks(order: seq<string>) returns (p: map<string, real>)
    requires Sorting.Distinct(order)
    ensures p.Keys == Sorting.Members(order) && forall i :: 0 <= i < |order| ==> p[order[i]] == MassP(i, |order|)
  {
    p := map[];
    for i := 0 to |order|
      invariant p.Keys == Sorting.Members(order[..i])
      invariant forall j :: 0 <= j < i ==> order[j] in p && p[order[j]] == MassP(j, |order|)
    {
      assert order[..i + 1] == order[..i] + [order[i]];
      p := p[order[i] := MassP(i, |order|)];
    }
    assert order[..|order|] == order;
  }

  lemma SortedByMass(mass: map<string, real>, ids: seq<string>)
    requires Sorting.Distinct(ids) && Sorting.Members(ids) == mass.Keys
    ensures var order := Sorting.Sort(NotLighter(mass), ids);
            && Sorting.Distinct(order) && Sorting.Members(order) == mass.Keys
            && forall i, j :: 0 <= i < j < |order| ==> Heavier(mass, order[i], order[j])
  {
    var le := NotLighter(mass);
    var order := Sorting.Sort(le, ids);
    NotLighterOrders(mass);
    Sorting.SortSorts(le, ids);
    Sorting.SortMembers(le, ids);
    Sorting.SortKeepsDistinct(le, ids);
    assert Sorting.Members(order) == Sorting.Members(ids);
    forall i, j | 0 <= i < j < |order| ensures Heavier(mass, order[i], order[j]) {
      assert le(order[i], order[j]) && order[i] != order[j];
    }
  }

  /** A smaller null probability is exactly a larger mass, or an equal one and a smaller id. */
  lemma RanksOrder(mass: map<string, real>, ranked: seq<string>, p: map<string, real>, a: string, b: string)
    requires RankedBy(mass, ranked, p) && a in mass && b in mass
    ensures 0.0 < p[a] < 1.0 && (p[a] < p[b] <==> Heavier(mass, a, b))
    ensures p[a] < p[b] <==> mass[a] > mass[b] || (mass[a] == mass[b] && Ids.Less(a, b))
  {
    assert a in Sorting.Members(ranked) && b in Sorting.Members(ranked);
    var i :| 0 <= i < |ranked| && ranked[i] == a;
    var j :| 0 <= j < |ranked| && ranked[j] == b;
    MassPOrders(i, j, |ranked|);
    NotLighterOrders(mass);
    Ids.LessIrreflexive(a);
    if j < i { assert NotLighter(mass)(b, a) && a != b; }
  }

  /** The mass channel's evidence for a candidate; a message the walk did not reach has none. */
  function MassEvidence(p: map<string, real>, id: string): real {
    if id in p then p[id] else 1.0
  }

  /** The strongest null probability that still pays for the stance and the tokens. `charge` is
      2 to the minus price times tokens: 1 when the budget is slack, smaller as it binds. */
  function Bar(lossRatio: real, charge: real): real {
    Decay(1.0 - lossRatio, charge)
  }

  predicate Detected(p: real, bar: real) {
    p < 1.0 && p <= bar
  }

  /** The gate of one candidate. Detections in both channels multiply their null probabilities. */
  function Gate(pSem: real, pMass: real, bar: real): Verdict {
    if !Detected(pSem, bar) && !Detected(pMass, bar) then Rejected
    else
      Admitted(Detect.Confidence(Decay(Spent(pSem, bar), Spent(pMass, bar))))
  }

  /** What a channel adds to the joint evidence. */
  function Spent(p: real, bar: real): real {
    if Detected(p, bar) then p else 1.0
  }

  /** At any non-negative price an admitted candidate's confidence clears the stance, and is no
      less than what either detection alone would give. */
  lemma AdmittedClearsStance(pSem: real, pMass: real, lossRatio: real, charge: real)
    requires 0.0 < pSem <= 1.0 && 0.0 < pMass <= 1.0
    requires 0.0 <= lossRatio < 1.0 && 0.0 < charge <= 1.0
    ensures var bar, v := Bar(lossRatio, charge), Gate(pSem, pMass, Bar(lossRatio, charge));
            && (v.Admitted? <==> Detected(pSem, bar) || Detected(pMass, bar))
            && (v.Admitted? ==>
                  && lossRatio <= v.confidence <= 1.0
                  && (Detected(pSem, bar) ==> Detect.Confidence(pSem) <= v.confidence)
                  && (Detected(pMass, bar) ==> Detect.Confidence(pMass) <= v.confidence))
  {
    var bar := Bar(lossRatio, charge);
    DecayShrinks(1.0 - lossRatio, charge);
    DecayShrinks(Spent(pSem, bar), Spent(pMass, bar));
  }

  /** A binary logarithm: increasing, and products become sums. */
  ghost predicate Logarithm(log2: real -> real) {
    && (forall x, y :: 0.0 < x < y ==> log2(x) < log2(y))
    && (forall x, y :: 0.0 < x && 0.0 < y ==> log2(x * y) == log2(x) + log2(y))
  }

  /** In bits: a channel detects exactly when its evidence pays for the stance and the tokens, which
      cost as many bits as the charge stands for. */
  lemma BarInBits(log2: real -> real, p: real, lossRatio: real, charge: real)
    requires Logarithm(log2) && 0.0 < p < 1.0 && lossRatio < 1.0 && 0.0 < charge
    ensures Detected(p, Bar(lossRatio, charge)) <==> -log2(p) >= -log2(1.0 - lossRatio) + (-log2(charge))
  {
    var bar := (1.0 - lossRatio) * charge;
    assert bar > 0.0 && Bar(lossRatio, charge) == bar;
    assert log2(bar) == log2(1.0 - lossRatio) + log2(charge);
    assert p < bar ==> log2(p) < log2(bar);
    assert bar < p ==> log2(bar) < log2(p);
  }

  /** Confidence is one less the null probability of what was detected; joint evidence multiplies. */
  lemma GateIsJoint(pSem: real, pMass: real, bar: real)
    requires pSem <= 1.0 && pMass <= 1.0
    ensures var sem, mass := pSem < 1.0 && pSem <= bar, pMass < 1.0 && pMass <= bar;
            Gate(pSem, pMass, bar) ==
              if sem && mass then Admitted(1.0 - pSem * pMass)
              else if sem then Admitted(1.0 - pSem)
              else if mass then Admitted(1.0 - pMass)
              else Rejected
  {
    assert Decay(pSem, 1.0) == pSem && Decay(1.0, pMass) == pMass;
  }

  /** The semantic channel's evidence is the rank probability of a similarity above every reference,
      and nothing otherwise. */
  lemma SemanticIsRank(sim: real, refs: seq<real>)
    ensures SemanticP(sim, refs) ==
              if forall i :: 0 <= i < |refs| ==> refs[i] < sim then 1.0 / (|refs| + 1) as real else 1.0
  {
    Detect.BeatsAllExactly(sim, refs);
  }

  /** What the gate decides about one candidate of an event. */
  function Judge(sim: real, refs: seq<real>, p: map<string, real>, id: string, lossRatio: real, charge: real): Verdict {
    Gate(SemanticP(sim, refs), MassEvidence(p, id), Bar(lossRatio, charge))
  }

  lemma EvidenceIsProbability(sim: real, refs: seq<real>, p: map<string, real>, id: string)
    requires forall a :: a in p ==> 0.0 < p[a] < 1.0
    ensures 0.0 < SemanticP(sim, refs) <= 1.0 && 0.0 < MassEvidence(p, id) <= 1.0
  {
    Detect.BeatsAllExactly(sim, refs);
  }

  /** A message the walk did not reach is judged by its similarity alone. */
  lemma UnreachedIsSemantic(sim: real, refs: seq<real>, p: map<string, real>, id: string, lossRatio: real, charge: real)
    requires id !in p
    ensures var sem := if forall i :: 0 <= i < |refs| ==> refs[i] < sim then 1.0 / (|refs| + 1) as real else 1.0;
            Judge(sim, refs, p, id, lossRatio, charge) ==
              if sem < 1.0 && sem <= (1.0 - lossRatio) * charge then Admitted(1.0 - sem) else Rejected
  {
    SemanticIsRank(sim, refs);
    Detect.BeatsAllExactly(sim, refs);
    GateIsJoint(SemanticP(sim, refs), 1.0, Bar(lossRatio, charge));
    DecayIsProduct(1.0 - lossRatio, charge);
  }

  /** A reached one by the rank of its mass as well. */
  lemma ReachedIsJoint(sim: real, refs: seq<real>, p: map<string, real>, id: string, lossRatio: real, charge: real)
    requires id in p && p[id] <= 1.0
    ensures Judge(sim, refs, p, id, lossRatio, charge) == Gate(SemanticP(sim, refs), p[id], (1.0 - lossRatio) * charge)
  {
    DecayIsProduct(1.0 - lossRatio, charge);
  }

  /** The gated event: every candidate is judged by its similarity against the references and by
      the rank of its walked mass; the admitted ones all clear the stance. `charge` is what a
      candidate's tokens cost at the current price. */
  method GateAll(candidates: map<string, real>, refs: seq<real>, mass: map<string, real>, lossRatio: real,
                 charge: string -> real)
    returns (admitted: map<string, real>, ghost p: map<string, real>, ghost ranked: seq<string>)
    requires 0.0 <= lossRatio < 1.0 && forall id :: 0.0 < charge(id) <= 1.0
    ensures RankedBy(mass, ranked, p)
    ensures forall id :: id in admitted <==>
                id in candidates && Judge(candidates[id], refs, p, id, lossRatio, charge(id)).Admitted?
    ensures forall id :: id in admitted ==>
                Judge(candidates[id], refs, p, id, lossRatio, charge(id)) == Admitted(admitted[id])
    ensures forall id :: id in admitted ==> lossRatio <= admitted[id] <= 1.0
  {
    var ps;
    ps, ranked := RankMasses(mass);
    p := ps;
    var ids := KeysOf(candidates);
    assert forall id :: id in ids <==> id in Sorting.Members(ids);
    admitted := map[];
    for i := 0 to |ids|
      invariant forall id :: id in admitted <==>
                    id in ids[..i] && Judge(candidates[id], refs, ps, id, lossRatio, charge(id)).Admitted?
      invariant forall id :: id in admitted ==>
                    Judge(candidates[id], refs, ps, id, lossRatio, charge(id)) == Admitted(admitted[id])
      invariant forall id :: id in admitted ==> lossRatio <= admitted[id] <= 1.0
    {
      var id := ids[i];
      assert ids[..i + 1] == ids[..i] + [id];
      EvidenceIsProbability(candidates[id], refs, ps, id);
      AdmittedClearsStance(SemanticP(candidates[id], refs), MassEvidence(ps, id), lossRatio, charge(id));
      match Judge(candidates[id], refs, ps, id, lossRatio, charge(id))
      case Rejected =>
      case Admitted(confidence) => admitted := admitted[id := confidence];
    }
    assert ids[..|ids|] == ids;
  }

  /** At equal cost, a message heavier than one its mass admits is admitted too. */
  lemma HeavierIsAdmitted(mass: map<string, real>, ranked: seq<string>, p: map<string, real>, a: string, b: string,
                          bar: real, pSem: real)
    requires RankedBy(mass, ranked, p) && a in mass && b in mass && Heavier(mass, a, b)
    requires Detected(MassEvidence(p, b), bar)
    ensures Gate(pSem, MassEvidence(p, a), bar).Admitted?
  {
    RanksOrder(mass, ranked, p, a, b);
  }

  /** A candidate that beats the whole sample is admitted at slack exactly when the sample is
      large enough for the stance. */
  lemma BeatingAllAtSlack(sim: real, refs: seq<real>, lossRatio: real)
    requires |refs| > 0 && 0.0 <= lossRatio < 1.0
    requires forall i :: 0 <= i < |refs| ==> refs[i] < sim
    ensures Gate(SemanticP(sim, refs), 1.0, Bar(lossRatio, 1.0)) ==
              if Detect.BeatAll(refs) <= 1.0 - lossRatio
              then Admitted(|refs| as real / (|refs| + 1) as real)
              else Rejected
  {
    Detect.BeatsAllExactly(sim, refs);
    var p := SemanticP(sim, refs);
    assert p == Detect.RankP(sim, refs) && Detect.AtOrAbove(sim, refs) == 0;
    assert p == Detect.BeatAll(refs);
    assert p < 1.0 by { Detect.DivideMonotone(1.0, (|refs| + 1) as real, (|refs| + 1) as real); }
    assert p * 1.0 == p;
  }

  /** Every candidate the gate admits into the prompt is selected, at no less than its stored
      confidence. */
  lemma AdmittedIsSelected(w: Walk, selected: seq<Entry>, below: map<string, real>, e: Edge, v: Verdict, pSem: real,
                           pMass: real, charge: real)
    requires 0.0 <= w.lossRatio < 1.0 && SelectionPromise(w, selected, below)
    requires 0.0 < pSem <= 1.0 && 0.0 < pMass <= 1.0 && 0.0 < charge <= 1.0
    requires v == Gate(pSem, pMass, Bar(w.lossRatio, charge)) && v.Admitted?
    requires Eligible(w, e) && e.to == w.prompt && e.from != w.prompt && e.score == v.confidence
    ensures exists s :: s in selected && s.id == e.from && e.score <= s.score
  {
    AdmittedClearsStance(pSem, pMass, w.lossRatio, charge);
    assert Chain(w, [e]) && ChainScore(w, [e]) == e.score;
  }

  // ----- Depth decay under a measured floor -----

  ghost function Power(b: real, n: nat): real {
    if n == 0 then 1.0 else Decay(b, Power(b, n - 1))
  }

  /** What one detected hop carries under a floor of R references. */
  ghost function HopStrength(w: Walk): real {
    |w.floor| as real / (|w.floor| + 1) as real
  }

  /** Under a measured floor a relational score is all or nothing. */
  lemma RelationalIsBinary(w: Walk, e: Edge)
    requires |w.floor| >= Detect.MIN_REFERENCE_SAMPLE
    ensures RelationalScore(w, e) == HopStrength(w) || RelationalScore(w, e) == 0.0
    ensures RelationalScore(w, e) != 0.0 <==> forall i :: 0 <= i < |w.floor| ==> w.floor[i] < e.crossEncoderScore
  {
    Detect.BeatsAllExactly(e.crossEncoderScore, w.floor);
    HopIsPositive(w);
  }

  /** Under a measured floor no hop strengthens a chain, whatever the scorer's units. */
  lemma FloorDamps(w: Walk)
    requires |w.floor| >= Detect.MIN_REFERENCE_SAMPLE && 0.0 <= w.lossRatio
    ensures Damped(w)
  {
    HopIsPositive(w);
    forall e | AcceptedStep(w, e) ensures RelationalScore(w, e) <= 1.0 { RelationalIsBinary(w, e); }
  }

  lemma HopIsPositive(w: Walk)
    requires |w.floor| > 0
    ensures 0.0 < HopStrength(w) < 1.0
  {
    var n := (|w.floor| + 1) as real;
    Detect.DivideMonotone(0.0, |w.floor| as real, n);
    Detect.DivideMonotone(|w.floor| as real, n, n);
  }

  lemma DecayAssociates(a: real, b: real, c: real)
    ensures Decay(a, Decay(b, c)) == Decay(Decay(a, b), c)
    ensures Decay(a, 0.0) == 0.0 && Decay(0.0, a) == 0.0
  {
  }

  /** The edge's observation beats every reference of the floor. */
  ghost predicate Beats(w: Walk, e: Edge) {
    forall i :: 0 <= i < |w.floor| ==> w.floor[i] < e.crossEncoderScore
  }

  /** Every hop after the first beats the floor. */
  ghost predicate AllBeat(w: Walk, via: seq<Edge>) {
    forall k :: 1 <= k < |via| ==> Beats(w, via[k])
  }

  lemma {:induction false} PowerIsPositive(b: real, n: nat)
    requires b > 0.0
    ensures Power(b, n) > 0.0
  {
    if n > 0 {
      PowerIsPositive(b, n - 1);
      PositiveProduct(b, Power(b, n - 1));
    }
  }

  lemma PositiveProduct(a: real, b: real)
    requires a > 0.0
    ensures a * b == 0.0 <==> b == 0.0
    ensures b > 0.0 ==> a * b > 0.0
  {
    if b > 0.0 { assert a * b > 0.0; } else if b < 0.0 { assert a * (-b) > 0.0 && a * (-b) == -(a * b); }
  }

  /** What a chain that beats the floor at every later hop is worth. */
  ghost function Formula(w: Walk, via: seq<Edge>): real
    requires via != []
  {
    Decay(Power(HopStrength(w), |via| - 1), SeedScore(via[0]))
  }

  lemma FormulaGrows(w: Walk, front: seq<Edge>, e: Edge)
    requires front != []
    ensures Formula(w, front + [e]) == Decay(HopStrength(w), Formula(w, front))
    ensures AllBeat(w, front + [e]) <==> AllBeat(w, front) && Beats(w, e)
  {
    var via := front + [e];
    assert via[0] == front[0] && via[|front|] == e;
    assert forall k :: 1 <= k < |front| ==> via[k] == front[k];
    DecayAssociates(HopStrength(w), Power(HopStrength(w), |front| - 1), SeedScore(front[0]));
  }

  /** A chain is worth the formula if every later hop beats the floor, and nothing otherwise. */
  lemma {:induction false} ChainScoreDecided(w: Walk, via: seq<Edge>)
    requires |w.floor| >= Detect.MIN_REFERENCE_SAMPLE && Chain(w, via)
    ensures ChainScore(w, via) == if AllBeat(w, via) then Formula(w, via) else 0.0
  {
    if |via| == 1 {
      assert Formula(w, via) == Decay(Power(HopStrength(w), 0), SeedScore(via[0]));
      DecayByOne(SeedScore(via[0]));
    } else {
      var e, front := via[|via| - 1], via[..|via| - 1];
      ChainScoreDecided(w, front);
      assert via == front + [e];
      FormulaGrows(w, front, e);
      RelationalIsBinary(w, e);
      DecayAssociates(RelationalScore(w, e), 0.0, 0.0);
      DecayAssociates(ChainScore(w, front), 0.0, 0.0);
    }
  }

  lemma DecayByOne(s: real)
    ensures Decay(1.0, s) == s
  {
  }

  /** Under a measured floor a selected entry scores its entry verdict times (R / (R + 1)) to the
      depth less one exactly when that verdict is zero or every later hop beats the floor; a
      positive stance leaves no other case. */
  lemma SelectedScoreByDepth(w: Walk, s: Entry)
    requires |w.floor| >= Detect.MIN_REFERENCE_SAMPLE && Chosen(w, s)
    ensures s.hopDepth == |s.via| > 0
    ensures s.score == Formula(w, s.via) <==> SeedScore(s.via[0]) == 0.0 || AllBeat(w, s.via)
    ensures 0.0 < w.lossRatio ==> s.score == Formula(w, s.via)
  {
    ChainScoreDecided(w, s.via);
    HopIsPositive(w);
    PowerIsPositive(HopStrength(w), |s.via| - 1);
    PositiveProduct(Power(HopStrength(w), |s.via| - 1), SeedScore(s.via[0]));
  }

  // ----- A stance of zero lets unbeaten hops in -----

  /** A prerequisite of the prompt with verdict 1, and one of its own observed below the floor. */
  ghost function ZeroStance(): (w: Walk)
    ensures Damped(w) && |w.floor| >= Detect.MIN_REFERENCE_SAMPLE && w.lossRatio == 0.0
  {
    var w := Walk(map["p" := [FirstHop()], "m" := [SecondHop()]], "p", "t", AllThreads, 0.0, [0.5, 0.5, 0.5, 0.5]);
    FloorDamps(w);
    w
  }

  ghost function FirstHop(): Edge {
    Edge("m", "p", 1.0, 0.9, EdgeSource.CrossEncoder, "t", "t")
  }

  ghost function SecondHop(): Edge {
    Edge("x", "m", 1.0, 0.1, EdgeSource.CrossEncoder, "t", "t")
  }

  /** Every chain to the second hop's message is worth nothing. */
  lemma SecondHopIsWorthless(via: seq<Edge>)
    requires Chain(ZeroStance(), via) && End(via) == "x"
    ensures |via| > 1 && ChainScore(ZeroStance(), via) == 0.0
  {
    var w, e := ZeroStance(), via[|via| - 1];
    assert "x"[0] != "m"[0] && "m"[0] != "p"[0] && "x"[0] != "p"[0];
    assert Eligible(w, e) && e == SecondHop();
    RelationalIsBinary(w, e);
    assert w.floor[0] >= e.crossEncoderScore;
    DecayAssociates(ChainScore(w, via[..|via| - 1]), 0.0, 0.0);
  }

  lemma TwoHops()
    ensures Chain(ZeroStance(), [FirstHop(), SecondHop()]) &&
            Formula(ZeroStance(), [FirstHop(), SecondHop()]) == 4.0 / 5.0
  {
    var w, via := ZeroStance(), [FirstHop(), SecondHop()];
    assert "x"[0] != "m"[0] && "m"[0] != "p"[0] && "x"[0] != "p"[0];
    assert via[..1] == [FirstHop()] && Chain(w, [FirstHop()]);
    assert Power(HopStrength(w), 1) == HopStrength(w) * Power(HopStrength(w), 0);
  }

  /** With LossRatio 0 an entry is selected at score 0 where the formula gives 4/5. */
  lemma ZeroStanceSelectsNothingWorth() returns (s: Entry)
    ensures Chosen(ZeroStance(), s) && s.score == 0.0 && Formula(ZeroStance(), s.via) == 4.0 / 5.0
  {
    var via := [FirstHop(), SecondHop()];
    s := Entry("x", 0.0, 2, via, "t", false, RawEvidence(via));
    TwoHops();
    SecondHopIsWorthless(via);
    forall c | Chain(ZeroStance(), c) && End(c) == "x" ensures ChainScore(ZeroStance(), c) <= 0.0 {
      SecondHopIsWorthless(c);
    }
    assert Best(ZeroStance(), "x", 0.0);
  }

  // ----- The selection event -----

  /** Selection over the live graph: refuses a thread scope without a thread, otherwise traverses
      and reduces. */
  method Select(d: Dag, prompt: string, thread: string, scope: Scope, lossRatio: real, floor: seq<real>)
    returns (ok: bool, selected: seq<Entry>, below: map<string, real>, ghost raw: seq<Entry>)
    requires d.Valid()
    ensures ok <==> !(scope == ThisThread && thread == "")
    ensures ok ==> Forced(Walk(d.backward, prompt, thread, scope, lossRatio, floor), raw, below)
    ensures ok ==> InScope(Walk(d.backward, prompt, thread, scope, lossRatio, floor), raw)
    ensures ok ==> TakesAll(Walk(d.backward, prompt, thread, scope, lossRatio, floor), raw, below)
    ensures ok && (Damped(Walk(d.backward, prompt, thread, scope, lossRatio, floor)) ||
                   (0.0 <= lossRatio && |floor| >= Detect.MIN_REFERENCE_SAMPLE)) ==>
              SelectionPromise(Walk(d.backward, prompt, thread, scope, lossRatio, floor), raw, below)
    ensures ok ==> |selected| == |raw| && forall i :: 0 <= i < |raw| ==>
              selected[i] == raw[i].(via := LastEdge(raw[i].via)) && |selected[i].via| == 1 &&
                  selected[i].via[0].from == selected[i].id
  {
    if scope == ThisThread && thread == "" {
      return false, [], map[], [];
    }
    var w := Walk(d.backward, prompt, thread, scope, lossRatio, floor);
    forall id, e | e in Lookup(w.backward, id) ensures e.to == id {
      assert Lookup(d.backward, id) == Into(d.log, id);
      IntoIsLogged(d.log, id, e);
    }
    var chosen;
    chosen, below := ExtractSubgraph(w);
    raw, ok := chosen, true;
    if 0.0 <= lossRatio && |floor| >= Detect.MIN_REFERENCE_SAMPLE { FloorDamps(w); }
    selected := TransitiveReduction(w, chosen);
  }
}
