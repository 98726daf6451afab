/** Shed-to-fit: the greedy knapsack that fits selected history into the budget and realizes the
    budget's shadow price (rrc/assembly.go). */
module Shed {
  import opened Messages
  import opened Protocol
  import opened Closure
  import opened Delivery
  import opened Wire
  import opened Gather
  import opened Sorting

  /** Evidence per token; a certain group is worth infinitely much. */
  datatype Density = Finite(value: real) | Infinite

  predicate Below(a: Density, b: Density) {
    a.Finite? && (b.Infinite? || a.value < b.value)
  }

  predicate NotAbove(a: Density, b: Density) {
    b.Infinite? || (a.Finite? && a.value <= b.value)
  }

  /** What one assembly is charged: the budget, the tokens spent before any selected message, the
      local wire, the token estimate and the binary logarithm. */
  datatype Terms = Terms(
    budget: int,
    effective: int,
    fixed: int,
    localWire: seq<Message>,
    cost: Message -> nat,
    log2: real -> real,
    lossRatio: real)

  function StanceBits(t: Terms): real {
    if t.lossRatio <= 0.0 then 0.0 else -t.log2(1.0 - t.lossRatio)
  }

  /** Surprisal bits of a confidence (rrc/detect.go). */
  function BitsFromConfidence(t: Terms, conf: real): Density {
    if conf >= 1.0 then Infinite else if conf <= 0.0 then Finite(0.0) else Finite(-t.log2(1.0 - conf))
  }

  function CostOf(t: Terms, g: DeliveryGroup): (c: nat)
    ensures c >= 1
  {
    var c := Tokens(t.cost, g.messages);
    if c < 1 then 1 else c
  }

  function DensityOf(t: Terms, g: DeliveryGroup): Density {
    var bits := BitsFromConfidence(t, g.score);
    if bits.Infinite? then Infinite else Finite((bits.value - StanceBits(t)) / CostOf(t, g) as real)
  }

  // ----- What density means, in scores and tokens -----

  /** A binary logarithm, as far as it matters here: increasing, and zero at 1. */
  ghost predicate Logarithm(log2: real -> real) {
    log2(1.0) == 0.0 && forall x, y :: 0.0 < x < y ==> log2(x) < log2(y)
  }

  ghost predicate Priced(t: Terms) {
    Logarithm(t.log2) && 0.0 <= t.lossRatio < 1.0
  }

  lemma DivideOrders(a: real, b: real, n: real)
    requires n > 0.0
    ensures a < b <==> a / n < b / n
    ensures a / n == 0.0 <==> a == 0.0
    ensures a / n > 0.0 <==> a > 0.0
  {
  }

  lemma DivideFalls(a: real, m: real, n: real)
    requires a > 0.0 && 0.0 < m < n
    ensures a / n < a / m
  {
    var x, y := a / m, a / n;
    assert x * m == a && y * n == a && x > 0.0 && x * (n - m) > 0.0;
    assert x * n == a + x * (n - m);
    assert (x - y) * n > 0.0;
  }

  /** More confidence is more evidence; none is worth nothing and certainty infinitely much. */
  lemma BitsOrder(t: Terms, c: real, c': real)
    requires Priced(t)
    ensures BitsFromConfidence(t, c).Infinite? <==> c >= 1.0
    ensures c <= 0.0 ==> BitsFromConfidence(t, c) == Finite(0.0)
    ensures c < c' && 0.0 < c' && c < 1.0 ==> Below(BitsFromConfidence(t, c), BitsFromConfidence(t, c'))
    ensures BitsFromConfidence(t, t.lossRatio) == Finite(StanceBits(t))
  {
    assert 0.0 < c < c' < 1.0 ==> 1.0 - c' < 1.0 - c;
    assert 0.0 < c' < 1.0 ==> t.log2(1.0 - c') < t.log2(1.0);
  }

  /** A group is infinitely dense exactly at score 1. */
  lemma CertainIsInfinite(t: Terms, g: DeliveryGroup)
    ensures DensityOf(t, g).Infinite? <==> g.score >= 1.0
  {
  }

  /** At equal cost the group of higher score is strictly denser. */
  lemma DenserByScore(t: Terms, a: DeliveryGroup, b: DeliveryGroup)
    requires Priced(t) && Tokens(t.cost, a.messages) == Tokens(t.cost, b.messages)
    requires a.score < b.score && a.score < 1.0 && 0.0 < b.score
    ensures DensityOf(t, a).Finite? && !NotAbove(DensityOf(t, b), DensityOf(t, a))
    ensures DensityOf(t, b).Finite? ==> DensityOf(t, a).value < DensityOf(t, b).value
  {
    BitsOrder(t, a.score, b.score);
    var x, y := BitsFromConfidence(t, a.score), BitsFromConfidence(t, b.score);
    if y.Finite? {
      DivideOrders(x.value - StanceBits(t), y.value - StanceBits(t), CostOf(t, a) as real);
    }
  }

  /** A score at the stance has density zero, one above it a positive density, one below a negative
      one, at any cost. */
  lemma DensityAtStance(t: Terms, g: DeliveryGroup)
    requires Priced(t) && g.score < 1.0
    ensures DensityOf(t, g).Finite?
    ensures g.score == t.lossRatio ==> DensityOf(t, g).value == 0.0
    ensures g.score > t.lossRatio ==> DensityOf(t, g).value > 0.0
    ensures g.score < t.lossRatio && 0.0 < t.lossRatio ==> DensityOf(t, g).value < 0.0
  {
    BitsOrder(t, g.score, t.lossRatio);
    BitsOrder(t, t.lossRatio, g.score);
    DivideOrders(BitsFromConfidence(t, g.score).value - StanceBits(t), 0.0, CostOf(t, g) as real);
    assert 0.0 / CostOf(t, g) as real == 0.0;
  }

  /** At equal score above the stance the costlier group is less dense. */
  lemma DenserByCost(t: Terms, a: DeliveryGroup, b: DeliveryGroup)
    requires Priced(t) && a.score == b.score && t.lossRatio < a.score < 1.0
    requires 0 < Tokens(t.cost, a.messages) < Tokens(t.cost, b.messages)
    ensures DensityOf(t, b).Finite? && DensityOf(t, a).Finite? && DensityOf(t, b).value < DensityOf(t, a).value
  {
    BitsOrder(t, t.lossRatio, a.score);
    DivideFalls(BitsFromConfidence(t, a.score).value - StanceBits(t), CostOf(t, a) as real, CostOf(t, b) as real);
  }

  /** `drop` stands at place `i`, and every group before it is denser. */
  ghost predicate FirstLowest(t: Terms, gs: seq<DeliveryGroup>, drop: DeliveryGroup, i: nat) {
    i < |gs| && gs[i] == drop && forall j :: 0 <= j < i ==> Below(DensityOf(t, drop), DensityOf(t, gs[j]))
  }

  /** The next casualty: the first group of lowest finite density. */
  method LowestDensityGroup(t: Terms, gs: seq<DeliveryGroup>) returns (found: bool, drop: DeliveryGroup)
    ensures found ==> drop in gs && DensityOf(t, drop).Finite? && forall g :: g in gs ==>
                NotAbove(DensityOf(t, drop), DensityOf(t, g))
    ensures found ==> exists i: nat :: FirstLowest(t, gs, drop, i)
    ensures !found ==> forall g :: g in gs ==> DensityOf(t, g).Infinite?
  {
    found, drop := false, DeliveryGroup("", [], 0.0, []);
    var lowest := Infinite;
    for i := 0 to |gs|
      invariant found <==> lowest.Finite?
      invariant found ==>
                  drop in gs && DensityOf(t, drop) == lowest &&
                  exists k: nat :: k < i && FirstLowest(t, gs, drop, k)
      invariant forall j :: 0 <= j < i ==> NotAbove(lowest, DensityOf(t, gs[j]))
    {
      assert Below(DensityOf(t, gs[i]), lowest) ==> FirstLowest(t, gs, gs[i], i);
      if Below(DensityOf(t, gs[i]), lowest) {
        lowest, drop, found := DensityOf(t, gs[i]), gs[i], true;
      }
    }
  }

  // ----- The price -----

  /** The larger of 0 and the largest shed density. */
  ghost function PriceOf(t: Terms, shed: seq<DeliveryGroup>): real {
    if shed == [] then 0.0
    else
      var rest, d := PriceOf(t, shed[..|shed| - 1]), DensityOf(t, shed[|shed| - 1]);
      if d.Finite? && d.value > rest then d.value else rest
  }

  /** The price is zero when nothing was shed; otherwise no shed density exceeds it and it is
      zero or one of them. */
  lemma {:induction false} PriceIsMaximum(t: Terms, shed: seq<DeliveryGroup>)
    ensures PriceOf(t, shed) >= 0.0
    ensures forall s :: s in shed && DensityOf(t, s).Finite? ==> DensityOf(t, s).value <= PriceOf(t, shed)
    ensures PriceOf(t, shed) == 0.0 || exists s :: s in shed && DensityOf(t, s) == Finite(PriceOf(t, shed))
  {
    if shed != [] {
      var front, last := shed[..|shed| - 1], shed[|shed| - 1];
      assert shed == front + [last];
      PriceIsMaximum(t, front);
      if PriceOf(t, shed) == PriceOf(t, front) && PriceOf(t, front) != 0.0 {
        var s :| s in front && DensityOf(t, s) == Finite(PriceOf(t, front));
        assert s in shed;
      } else if PriceOf(t, shed) != 0.0 {
        assert last in shed;
      }
    }
  }

  lemma PriceSnoc(t: Terms, shed: seq<DeliveryGroup>, g: DeliveryGroup)
    ensures PriceOf(t, shed + [g]) ==
            var d := DensityOf(t, g); if d.Finite? && d.value > PriceOf(t, shed) then d.value else PriceOf(t, shed)
  {
    assert (shed + [g])[..|shed|] == shed;
  }

  // ----- What certain groups cost -----

  /** Tokens of a group whose density is infinite, which shedding never picks. */
  ghost function FirmTokens(t: Terms): DeliveryGroup -> nat {
    (g: DeliveryGroup) => if DensityOf(t, g).Infinite? then Tokens(t.cost, g.messages) else 0
  }

  lemma {:induction false} FirmIsPart(t: Terms, gs: seq<DeliveryGroup>)
    ensures SumOver(FirmTokens(t), gs) <= TotalCost(t.cost, gs)
    ensures (forall g :: g in gs ==> DensityOf(t, g).Infinite?) ==> SumOver(FirmTokens(t), gs) == TotalCost(t.cost, gs)
    ensures (forall g :: g in gs ==> DensityOf(t, g).Finite?) ==> SumOver(FirmTokens(t), gs) == 0
  {
    if gs != [] {
      var front, last := gs[..|gs| - 1], gs[|gs| - 1];
      assert gs == front + [last];
      FirmIsPart(t, front);
      assert last in gs && forall g :: g in front ==> g in gs;
    }
  }

  // ----- The loop -----

  datatype Outcome =
    | Fit(wire: seq<Message>, groups: seq<DeliveryGroup>, dropped: set<string>, price: real, total: int)
    | OverBudget(needed: int)
    | NotAssembled(why: Gathered)

  ghost function Base(t: Terms): int {
    t.fixed + Tokens(t.cost, t.localWire)
  }

  ghost function RootsShed(shed: seq<DeliveryGroup>): set<string> {
    set g, x | g in shed && x in g.rootIDs :: x
  }

  /** The bookkeeping of the shed loop over the groups `all` it started with: `now` are left,
      `shed` went, cheapest evidence first, each because the budget was overrun. */
  ghost predicate Ledger(t: Terms, all: seq<DeliveryGroup>, now: seq<DeliveryGroup>, shed: seq<DeliveryGroup>,
                         price: real) {
    && multiset(all) == multiset(now) + multiset(shed)
    && price == PriceOf(t, shed)
    && (forall s :: s in shed ==> DensityOf(t, s).Finite?)
    && (forall s, g :: s in shed && g in now ==> NotAbove(DensityOf(t, s), DensityOf(t, g)))
    && (shed != [] ==> t.budget > 0)
    && (shed != [] ==> Base(t) + TotalCost(t.cost, now) + Tokens(t.cost, shed[|shed| - 1].messages) > t.effective)
  }

  lemma CostAfter(cost: Message -> nat, now: seq<DeliveryGroup>, next: seq<DeliveryGroup>, g: DeliveryGroup)
    requires multiset(now) == multiset(next) + multiset{g}
    ensures TotalCost(cost, now) == TotalCost(cost, next) + Tokens(cost, g.messages)
    ensures |next| < |now|
    ensures forall h :: h in next ==> h in now
  {
    assert multiset(now) == multiset(next + [g]);
    SumOverPermutes(GroupTokens(cost), now, next + [g]);
    assert (next + [g])[..|next|] == next;
    assert |multiset(now)| == |multiset(next)| + 1;
    forall h | h in next ensures h in now {
      assert h in multiset(next) && h in multiset(now);
    }
  }

  lemma ShedKeepsLedger(t: Terms, all: seq<DeliveryGroup>, now: seq<DeliveryGroup>, next: seq<DeliveryGroup>,
                        shed: seq<DeliveryGroup>, price: real, g: DeliveryGroup)
    requires Ledger(t, all, now, shed, price) && multiset(now) == multiset(next) + multiset{g}
    requires g in now && DensityOf(t, g).Finite? && forall h :: h in now ==> NotAbove(DensityOf(t, g), DensityOf(t, h))
    requires t.budget > 0 && Base(t) + TotalCost(t.cost, now) > t.effective
    ensures var d := DensityOf(t, g).value; Ledger(t, all, next, shed + [g], if d > price then d else price)
  {
    CostAfter(t.cost, now, next, g);
    PriceSnoc(t, shed, g);
    assert multiset(shed + [g]) == multiset(shed) + multiset{g};
  }

  lemma DroppedSnoc(excluded: set<string>, shed: seq<DeliveryGroup>, g: DeliveryGroup)
    ensures excluded + RootsShed(shed) + RootSet(g) == excluded + RootsShed(shed + [g])
  {
    var more := shed + [g];
    forall x | x in RootsShed(shed) ensures x in RootsShed(more) {
      var h :| h in shed && x in h.rootIDs;
      assert h in more;
    }
    forall x | x in RootSet(g) ensures x in RootsShed(more) {
      assert g in more;
    }
  }

  /** Groups that form one round, in any order, are fit for the wire. */
  ghost predicate Deliverable(sc: Scene, gs: seq<DeliveryGroup>) {
    && DisjointGroups(gs) && OneMessagePerId(gs)
    && (forall g :: g in gs ==> Distinct(g.messages))
    && (forall g, m :: g in gs && m in g.messages ==> m.id !in sc.localIDs && m in sc.corpus)
  }

  lemma RoundIsDeliverable(sc: Scene, dropped: set<string>, gs: seq<DeliveryGroup>)
    requires Sound(sc) && AllClosable(sc, dropped) && multiset(gs) == multiset(Round(sc, dropped))
    ensures Deliverable(sc, gs)
  {
    var round := Round(sc, dropped);
    SameGroups(gs, round);
    RoundIsApart(sc, dropped);
    forall g | g in gs ensures forall m :: m in g.messages ==> m.id !in sc.localIDs && m in sc.corpus {
      var r := RoundClosure(sc, dropped, g);
    }
    StillApart(gs, round);
    CorpusGroups(sc.corpus, gs);
  }

  lemma CorpusGroups(corpus: seq<Message>, gs: seq<DeliveryGroup>)
    requires UniqueIds(corpus) && forall g, m :: g in gs && m in g.messages ==> m in corpus
    ensures OneMessagePerId(gs)
  {
  }

  lemma SameGroups(a: seq<DeliveryGroup>, b: seq<DeliveryGroup>)
    requires multiset(a) == multiset(b)
    ensures forall g :: g in a <==> g in b
  {
    forall g ensures g in a <==> g in b {
      assert g in a <==> g in multiset(a);
      assert g in b <==> g in multiset(b);
    }
  }

  lemma StillApart(gs: seq<DeliveryGroup>, round: seq<DeliveryGroup>)
    requires multiset(gs) == multiset(round) && Distinct(round) && ApartGroups(round)
    ensures DisjointGroups(gs)
  {
    SameGroups(gs, round);
    DistinctIsOnce(round);
    DistinctIsOnce(gs);
    forall i, j, m | 0 <= i < j < |gs| && m in gs[i].messages ensures m !in gs[j].messages {
      assert gs[i] in gs && gs[j] in gs && gs[i] != gs[j];
    }
  }

  /** What a fit delivers. */
  ghost predicate FitPromise(sc: Scene, t: Terms, excluded: set<string>, r: Outcome, shed: seq<DeliveryGroup>)
    requires r.Fit?
  {
    && multiset(r.groups) == multiset(Round(sc, r.dropped))
    && r.dropped == excluded + RootsShed(shed)
    && Ledger(t, Round(sc, excluded), r.groups, shed, r.price)
    && r.total == Base(t) + TotalCost(t.cost, r.groups)
    && (t.budget > 0 ==> r.total <= t.effective)
    && (exists head :: WireOf(r.groups, sc.localIDs, head) && r.wire == head + t.localWire)
  }

  /** A shed group `s` beside a delivered one: at equal cost it scores no more, and at equal score
      above the stance it costs no less. */
  ghost predicate FairPair(t: Terms, s: DeliveryGroup, g: DeliveryGroup) {
    && (Tokens(t.cost, g.messages) == Tokens(t.cost, s.messages) ==> s.score <= 0.0 || s.score <= g.score)
    && (g.score == s.score && t.lossRatio < s.score ==>
          Tokens(t.cost, s.messages) == 0 || Tokens(t.cost, g.messages) <= Tokens(t.cost, s.messages))
  }

  /** What a fit means in scores: only uncertain groups were shed, no delivered group of the same
      cost scores less than a shed one, none of the same score costs more, and the price is positive
      exactly when a group above the stance was shed. */
  ghost predicate FairlyShed(t: Terms, delivered: seq<DeliveryGroup>, shed: seq<DeliveryGroup>, price: real) {
    && (forall s :: s in shed ==> s.score < 1.0)
    && (forall s, g {:trigger FairPair(t, s, g)} :: s in shed && g in delivered ==> FairPair(t, s, g))
    && price >= 0.0 && (price > 0.0 <==> exists s :: s in shed && s.score > t.lossRatio)
  }

  lemma LedgerIsFair(t: Terms, all: seq<DeliveryGroup>, now: seq<DeliveryGroup>, shed: seq<DeliveryGroup>, price: real)
    requires Priced(t) && Ledger(t, all, now, shed, price)
    ensures FairlyShed(t, now, shed, price)
  {
    forall s, g | s in shed && g in now ensures FairPair(t, s, g) { FairOnes(t, s, g); }
    PriceIsFair(t, shed);
  }

  lemma FairOnes(t: Terms, s: DeliveryGroup, g: DeliveryGroup)
    requires Priced(t) && DensityOf(t, s).Finite? && NotAbove(DensityOf(t, s), DensityOf(t, g))
    ensures FairPair(t, s, g)
  {
    CertainIsInfinite(t, s);
    if Tokens(t.cost, g.messages) == Tokens(t.cost, s.messages) && g.score < s.score && 0.0 < s.score {
      DenserByScore(t, g, s);
    }
    if g.score == s.score && t.lossRatio < s.score && 0 < Tokens(t.cost, s.messages) < Tokens(t.cost, g.messages) {
      DenserByCost(t, s, g);
    }
  }

  lemma PriceIsFair(t: Terms, shed: seq<DeliveryGroup>)
    requires Priced(t) && forall s :: s in shed ==> DensityOf(t, s).Finite?
    ensures forall s :: s in shed ==> s.score < 1.0
    ensures PriceOf(t, shed) >= 0.0 && (PriceOf(t, shed) > 0.0 <==> exists s :: s in shed && s.score > t.lossRatio)
  {
    PriceIsMaximum(t, shed);
    forall s | s in shed ensures s.score < 1.0 && (s.score > t.lossRatio <==> DensityOf(t, s).value > 0.0) {
      CertainIsInfinite(t, s);
      DensityAtStance(t, s);
    }
  }

  /** One round of the loop: the groups, their wire and its exact cost. */
  method PriceRound(sc: Scene, t: Terms, dropped: set<string>) returns (g: Gathered, head: seq<Message>, total: int)
    requires Sound(sc)
    ensures g.Groups? <==> AllClosable(sc, dropped)
    ensures g.Groups? || Blocks(sc, dropped, g)
    ensures g.Groups? ==>
              && multiset(g.groups) == multiset(Round(sc, dropped))
              && WireOf(g.groups, sc.localIDs, head)
              && total == t.fixed + Tokens(t.cost, head + t.localWire) == Base(t) + TotalCost(t.cost, g.groups)
  {
    head, total := [], 0;
    g := GatherRound(sc, dropped);
    if g.Groups? {
      RoundIsDeliverable(sc, dropped, g.groups);
      head, total := CostRound(sc, t, g.groups);
    }
  }

  /** The wire of deliverable groups and what it costs on top of the local wire. */
  method CostRound(sc: Scene, t: Terms, groups: seq<DeliveryGroup>) returns (head: seq<Message>, total: int)
    requires Deliverable(sc, groups)
    ensures WireOf(groups, sc.localIDs, head)
    ensures total == t.fixed + Tokens(t.cost, head + t.localWire) == Base(t) + TotalCost(t.cost, groups)
  {
    head := GroupsToWire(groups, sc.localIDs);
    total := WireTokens(t.cost, head + t.localWire, t.fixed);
    RoundTotal(t, sc.localIDs, groups, head);
  }

  lemma RoundTotal(t: Terms, localIDs: set<string>, groups: seq<DeliveryGroup>, head: seq<Message>)
    requires DisjointGroups(groups) && (forall g :: g in groups ==> Distinct(g.messages))
    requires forall g, m :: g in groups && m in g.messages ==> m.id !in localIDs
    requires WireOf(groups, localIDs, head)
    ensures t.fixed + Tokens(t.cost, head + t.localWire) == Base(t) + TotalCost(t.cost, groups)
  {
    WireCostIsAdditive(t.cost, groups, localIDs, head);
    TokensAppend(t.cost, head, t.localWire);
  }

  lemma LedgerReordered(t: Terms, all: seq<DeliveryGroup>, now: seq<DeliveryGroup>, now': seq<DeliveryGroup>,
                        shed: seq<DeliveryGroup>, price: real)
    requires Ledger(t, all, now, shed, price) && multiset(now) == multiset(now')
    ensures Ledger(t, all, now', shed, price)
  {
    SumOverPermutes(GroupTokens(t.cost), now, now');
    forall g | g in now' ensures g in now {
      assert g in multiset(now') && g in multiset(now);
    }
  }

  lemma NextRoundOf(sc: Scene, dropped: set<string>, groups: seq<DeliveryGroup>, g: DeliveryGroup)
    requires multiset(groups) == multiset(Round(sc, dropped)) && g in groups
    ensures multiset(groups) == multiset(Round(sc, dropped + RootSet(g))) + multiset{g}
  {
    assert g in multiset(groups) && g in multiset(Round(sc, dropped));
    ShedRemovesGroup(sc, dropped, g);
  }

  lemma ClosableShrinks(sc: Scene, dropped: set<string>, more: set<string>)
    requires AllClosable(sc, dropped)
    ensures AllClosable(sc, dropped + more)
  {
  }

  /** What the certain groups of the first round cost on top of the local wire. */
  ghost function FirmTotal(sc: Scene, t: Terms, excluded: set<string>): int {
    Base(t) + SumOver(FirmTokens(t), Round(sc, excluded))
  }

  /** Which way the shed loop ends, and why. */
  ghost predicate Verdict(sc: Scene, t: Terms, excluded: set<string>, r: Outcome) {
    // It cannot start exactly when some competing pick cannot be closed, and says which.
    && (r.NotAssembled? <==> !AllClosable(sc, excluded))
    && (r.NotAssembled? ==> Blocks(sc, excluded, r.why))
    // The budget defeats it exactly when the certain groups alone overrun it.
    && (AllClosable(sc, excluded) ==> (r.OverBudget? <==> t.budget > 0 && FirmTotal(sc, t, excluded) > t.effective))
    && (r.OverBudget? ==> r.needed == FirmTotal(sc, t, excluded))
  }

  method ShedToFit(sc: Scene, t: Terms, excluded: set<string>) returns (r: Outcome, ghost shed: seq<DeliveryGroup>)
    requires Sound(sc) && t.lossRatio < 1.0
    ensures Verdict(sc, t, excluded, r)
    ensures r.Fit? ==> FitPromise(sc, t, excluded, r, shed)
    ensures r.Fit? && Priced(t) ==> FairlyShed(t, r.groups, shed, r.price)
  {
    var dropped, price := excluded, 0.0;
    shed := [];
    while true
      invariant Shedding(sc, t, excluded, dropped, shed, price)
      decreases |Round(sc, dropped)|
    {
      var gathered, head, total := PriceRound(sc, t, dropped);
      if !gathered.Groups? {
        return NotAssembled(gathered), shed;
      }
      var groups := gathered.groups;
      if t.budget <= 0 || total <= t.effective {
        FitsNow(sc, t, excluded, dropped, shed, price, groups, head, total);
        if Priced(t) { LedgerIsFair(t, Round(sc, excluded), groups, shed, price); }
        return Fit(head + t.localWire, groups, dropped, price, total), shed;
      }
      var found, drop := LowestDensityGroup(t, groups);
      if !found {
        NothingToDrop(sc, t, excluded, dropped, shed, price, groups, total);
        return OverBudget(total), shed;
      }
      DropOne(sc, t, excluded, dropped, shed, price, groups, drop);
      var roots, d := RootSet(drop), DensityOf(t, drop).value;
      dropped, shed, price := dropped + roots, shed + [drop], if d > price then d else price;
    }
  }

  /** Between two rounds: the ledger is kept, and what could be gathered still can. */
  ghost predicate Shedding(sc: Scene, t: Terms, excluded: set<string>, dropped: set<string>,
                           shed: seq<DeliveryGroup>, price: real) {
    && Ledger(t, Round(sc, excluded), Round(sc, dropped), shed, price)
    && dropped == excluded + RootsShed(shed)
    && (dropped != excluded ==> AllClosable(sc, excluded))
    && (AllClosable(sc, excluded) ==> AllClosable(sc, dropped))
  }

  lemma FitsNow(sc: Scene, t: Terms, excluded: set<string>, dropped: set<string>, shed: seq<DeliveryGroup>,
                price: real, groups: seq<DeliveryGroup>, head: seq<Message>, total: int)
    requires Shedding(sc, t, excluded, dropped, shed, price) && AllClosable(sc, dropped)
    requires multiset(groups) == multiset(Round(sc, dropped)) && WireOf(groups, sc.localIDs, head)
    requires total == Base(t) + TotalCost(t.cost, groups) && (t.budget <= 0 || total <= t.effective)
    ensures var r := Fit(head + t.localWire, groups, dropped, price, total);
            Verdict(sc, t, excluded, r) && FitPromise(sc, t, excluded, r, shed)
  {
    LedgerReordered(t, Round(sc, excluded), Round(sc, dropped), groups, shed, price);
    FirmFits(t, Round(sc, excluded), groups, shed, price);
  }

  lemma NothingToDrop(sc: Scene, t: Terms, excluded: set<string>, dropped: set<string>, shed: seq<DeliveryGroup>,
                      price: real, groups: seq<DeliveryGroup>, total: int)
    requires Shedding(sc, t, excluded, dropped, shed, price) && AllClosable(sc, dropped)
    requires multiset(groups) == multiset(Round(sc, dropped))
    requires total == Base(t) + TotalCost(t.cost, groups) && t.budget > 0 && total > t.effective
    requires forall g :: g in groups ==> DensityOf(t, g).Infinite?
    ensures Verdict(sc, t, excluded, OverBudget(total))
  {
    LedgerReordered(t, Round(sc, excluded), Round(sc, dropped), groups, shed, price);
    FirmOverruns(t, Round(sc, excluded), groups, shed, price);
  }

  lemma DropOne(sc: Scene, t: Terms, excluded: set<string>, dropped: set<string>, shed: seq<DeliveryGroup>,
                price: real, groups: seq<DeliveryGroup>, g: DeliveryGroup)
    requires Shedding(sc, t, excluded, dropped, shed, price) && AllClosable(sc, dropped)
    requires multiset(groups) == multiset(Round(sc, dropped))
    requires t.budget > 0 && Base(t) + TotalCost(t.cost, groups) > t.effective
    requires g in groups && DensityOf(t, g).Finite?
    requires forall h :: h in groups ==> NotAbove(DensityOf(t, g), DensityOf(t, h))
    ensures var d := DensityOf(t, g).value;
            Shedding(sc, t, excluded, dropped + RootSet(g), shed + [g], if d > price then d else price)
    ensures |Round(sc, dropped + RootSet(g))| < |Round(sc, dropped)|
  {
    var roots := RootSet(g);
    LedgerReordered(t, Round(sc, excluded), Round(sc, dropped), groups, shed, price);
    NextRoundOf(sc, dropped, groups, g);
    ShedKeepsLedger(t, Round(sc, excluded), groups, Round(sc, dropped + roots), shed, price, g);
    ClosableShrinks(sc, dropped, roots);
    DroppedSnoc(excluded, shed, g);
    RoundShrinks(sc, dropped, roots, groups, g);
  }

  lemma RoundShrinks(sc: Scene, dropped: set<string>, roots: set<string>, groups: seq<DeliveryGroup>, g: DeliveryGroup)
    requires multiset(groups) == multiset(Round(sc, dropped))
    requires multiset(groups) == multiset(Round(sc, dropped + roots)) + multiset{g}
    ensures |Round(sc, dropped + roots)| < |Round(sc, dropped)|
  {
    assert |multiset(Round(sc, dropped))| == |multiset(Round(sc, dropped + roots))| + 1;
  }

  lemma FirmSurvives(t: Terms, all: seq<DeliveryGroup>, now: seq<DeliveryGroup>, shed: seq<DeliveryGroup>, price: real)
    requires Ledger(t, all, now, shed, price)
    ensures SumOver(FirmTokens(t), all) == SumOver(FirmTokens(t), now)
  {
    SumOverPermutes(FirmTokens(t), all, now + shed);
    SumOverAppends(FirmTokens(t), now, shed);
    FirmIsPart(t, shed);
  }

  lemma FirmFits(t: Terms, all: seq<DeliveryGroup>, now: seq<DeliveryGroup>, shed: seq<DeliveryGroup>, price: real)
    requires Ledger(t, all, now, shed, price)
    ensures SumOver(FirmTokens(t), all) <= TotalCost(t.cost, now)
  {
    FirmSurvives(t, all, now, shed, price);
    FirmIsPart(t, now);
  }

  lemma FirmOverruns(t: Terms, all: seq<DeliveryGroup>, now: seq<DeliveryGroup>, shed: seq<DeliveryGroup>, price: real)
    requires Ledger(t, all, now, shed, price) && forall g :: g in now ==> DensityOf(t, g).Infinite?
    ensures SumOver(FirmTokens(t), all) == TotalCost(t.cost, now)
  {
    FirmSurvives(t, all, now, shed, price);
    FirmIsPart(t, now);
  }

  /** Once local context fits, selected history whose scores are all below 1 never fails the
      budget. */
  lemma UncertainNeverOverruns(sc: Scene, t: Terms, excluded: set<string>)
    requires forall p :: p in sc.selected ==> p.score < 1.0
    requires Base(t) <= t.effective
    ensures FirmTotal(sc, t, excluded) <= t.effective
  {
    forall g | g in Round(sc, excluded) ensures DensityOf(t, g).Finite? {
      var p := RoundMember(sc, excluded, g);
    }
    FirmIsPart(t, Round(sc, excluded));
  }
}
