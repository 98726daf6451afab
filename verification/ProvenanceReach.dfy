/** Phase 1 of the provenance walk: capped best-first reachability under the max-product
    order, with lazy deletion in the heap (rrc/provenance.go). */
module ProvenanceReach {
  import opened Dag
  import opened Provenance
  import opened Sorting
  import Ids

  datatype BoundEntry = BoundEntry(id: string, bound: real)

  /** Larger bound first, smaller id on equal bounds. */
  predicate Before(a: BoundEntry, b: BoundEntry) {
    if a.bound != b.bound then a.bound > b.bound else Ids.Less(a.id, b.id)
  }

  predicate NotAfter(a: BoundEntry, b: BoundEntry) {
    a == b || Before(a, b)
  }

  lemma BeforeOrders(a: BoundEntry, b: BoundEntry, c: BoundEntry)
    ensures a == b || Before(a, b) || Before(b, a)
    ensures NotAfter(a, b) && NotAfter(b, c) ==> NotAfter(a, c)
    ensures NotAfter(a, b) && NotAfter(b, a) ==> a == b
  {
    Ids.LessTotal(a.id, b.id);
    if Ids.Less(a.id, b.id) {
      Ids.LessAsymmetric(a.id, b.id);
      if Ids.Less(b.id, c.id) { Ids.LessTransitive(a.id, b.id, c.id); }
    }
  }

  method PopFirst(h: seq<BoundEntry>) returns (top: BoundEntry, rest: seq<BoundEntry>)
    requires h != []
    ensures top in h
    ensures forall e :: e in h ==> NotAfter(top, e)
    ensures forall e :: e in h ==> e == top || e in rest
    ensures forall e :: e in rest ==> e in h
    ensures |rest| == |h| - 1
  {
    var at := 0;
    for i := 1 to |h|
      invariant 0 <= at < i
      invariant forall j :: 0 <= j < i ==> NotAfter(h[at], h[j])
    {
      if Before(h[i], h[at]) {
        forall j | 0 <= j < i ensures NotAfter(h[i], h[j]) { BeforeOrders(h[i], h[at], h[j]); }
        at := i;
      } else {
        BeforeOrders(h[i], h[at], h[at]);
      }
    }
    top, rest := h[at], h[..at] + h[at + 1..];
  }

  // ----- The invariant of the walk -----

  ghost predicate Settled(anchors: set<string>, kept: seq<string>, id: string) {
    id in anchors || id in kept
  }

  /** What an expanded node passes on: 1 for an anchor, its own bound otherwise. */
  ghost function Passes(anchors: set<string>, best: map<string, real>, u: string): real {
    if u in anchors then 1.0 else if u in best then best[u] else 0.0
  }

  /** The bound a node that passes `bound` offers one contributor. */
  function Offer(bound: real, c: Contribution): BoundEntry {
    BoundEntry(c.from, Through(bound, c.weight))
  }

  /** `x` has an edge into the settled set that offers it exactly `b`. */
  ghost predicate Offered(g: Graph, anchors: set<string>, kept: seq<string>, best: map<string, real>,
                          x: string, b: real)
  {
    exists u, c :: Settled(anchors, kept, u) && c in In(g, u) &&
                   Offer(Passes(anchors, best, u), c) == BoundEntry(x, b)
  }

  /** Everything an expanded node `u` offers has reached `best`. */
  ghost predicate Relaxed(g: Graph, anchors: set<string>, kept: seq<string>, best: map<string, real>, u: string) {
    forall c :: c in In(g, u) && !Settled(anchors, kept, c.from) ==>
                  c.from in best && Offer(Passes(anchors, best, u), c).bound <= best[c.from]
  }

  ghost predicate WellKept(anchors: set<string>, kept: seq<string>, best: map<string, real>) {
    && Distinct(kept)
    && (forall k :: k in kept ==> k in best)
    && (forall k :: k in best ==> k !in anchors && 0.0 <= best[k] <= 1.0)
  }

  ghost predicate Descending(kept: seq<string>, best: map<string, real>)
    requires forall k :: k in kept ==> k in best
  {
    forall i, j :: 0 <= i < j < |kept| ==> best[kept[i]] >= best[kept[j]]
  }

  ghost predicate FrontierBelow(anchors: set<string>, kept: seq<string>, best: map<string, real>)
    requires forall k :: k in kept ==> k in best
  {
    forall x, k :: x in best && !Settled(anchors, kept, x) && k in kept ==> best[x] <= best[k]
  }

  ghost predicate HeapCovers(anchors: set<string>, kept: seq<string>, best: map<string, real>, h: seq<BoundEntry>) {
    && (forall x :: x in best && !Settled(anchors, kept, x) ==> BoundEntry(x, best[x]) in h)
    && (forall e :: e in h ==> e.id in best && e.bound <= best[e.id])
  }

  /** Every recorded bound is offered by an edge into the settled set. */
  ghost predicate AllOffered(g: Graph, anchors: set<string>, kept: seq<string>, best: map<string, real>) {
    forall x {:trigger Offered(g, anchors, kept, best, x, best[x])} :: x in best ==>
            Offered(g, anchors, kept, best, x, best[x])
  }

  /** Some trail from `x` into the anchors is worth exactly `b`. */
  ghost predicate Witnessed(g: Graph, anchors: set<string>, x: string, b: real) {
    exists p :: Trail(g, anchors, x, p) && Strength(g, p) == b
  }

  ghost predicate AllWitnessed(g: Graph, anchors: set<string>, best: map<string, real>) {
    forall x {:trigger Witnessed(g, anchors, x, best[x])} :: x in best ==> Witnessed(g, anchors, x, best[x])
  }

  /** `v` is the first, in heap order, of all offers the anchors and `order` make to nodes
      outside them. */
  ghost predicate Next(g: Graph, anchors: set<string>, order: seq<string>, best: map<string, real>, v: string) {
    && v in best && !Settled(anchors, order, v)
    && Offered(g, anchors, order, best, v, best[v])
    && (forall x, b :: !Settled(anchors, order, x) && Offered(g, anchors, order, best, x, b) ==>
                         NotAfter(BoundEntry(v, best[v]), BoundEntry(x, b)))
  }

  /** The walk never has a choice: each node it keeps is the one `Next` names. */
  ghost predicate Canonical(g: Graph, anchors: set<string>, order: seq<string>, best: map<string, real>) {
    forall i {:trigger Next(g, anchors, order[..i], best, order[i])} :: 0 <= i < |order| ==>
      Next(g, anchors, order[..i], best, order[i])
  }

  ghost predicate Expanded(g: Graph, anchors: set<string>, kept: seq<string>, best: map<string, real>) {
    forall u {:trigger Relaxed(g, anchors, kept, best, u)} :: Settled(anchors, kept, u) ==>
            Relaxed(g, anchors, kept, best, u)
  }

  ghost predicate Final(g: Graph, anchors: set<string>, kept: seq<string>, best: map<string, real>) {
    && (forall k :: k in kept ==> k in best)
    && (forall k {:trigger Strongest(g, anchors, k, best[k])} :: k in kept ==> Strongest(g, anchors, k, best[k]))
  }

  ghost predicate Inv(g: Graph, anchors: set<string>, kept: seq<string>, best: map<string, real>, h: seq<BoundEntry>) {
    && WellKept(anchors, kept, best)
    && Descending(kept, best)
    && FrontierBelow(anchors, kept, best)
    && AllOffered(g, anchors, kept, best)
    && AllWitnessed(g, anchors, best)
    && Expanded(g, anchors, kept, best)
    && Final(g, anchors, kept, best)
    && Canonical(g, anchors, kept, best)
    && HeapCovers(anchors, kept, best, h)
  }

  /** `top` is the heap's first entry and is not stale. */
  ghost predicate Fresh(anchors: set<string>, kept: seq<string>, best: map<string, real>,
                        h: seq<BoundEntry>, top: BoundEntry)
  {
    && top in h && (forall e :: e in h ==> NotAfter(top, e))
    && !Settled(anchors, kept, top.id) && top.id in best && top.bound == best[top.id]
  }

  // ----- Relaxing one expanded node -----

  /** What a node that passes `bound` offers its contributors. */
  function Offers(ins: seq<Contribution>, bound: real): (offers: seq<BoundEntry>)
    ensures |offers| == |ins|
    ensures forall i :: 0 <= i < |ins| ==> offers[i] == Offer(bound, ins[i])
  {
    seq(|ins|, i requires 0 <= i < |ins| => Offer(bound, ins[i]))
  }

  /** `best'` is `best` raised by `offers`, settled ids excepted. */
  ghost predicate Raised(anchors: set<string>, kept: seq<string>, offers: seq<BoundEntry>,
                         best: map<string, real>, best': map<string, real>)
  {
    && (forall x :: x in best ==> x in best' && best[x] <= best'[x])
    && (forall x :: x in best' && Settled(anchors, kept, x) ==> x in best && best'[x] == best[x])
    && (forall x :: x in best' ==> (x in best && best'[x] == best[x]) || BoundEntry(x, best'[x]) in offers)
    && (forall o :: o in offers && !Settled(anchors, kept, o.id) ==> o.id in best' && o.bound <= best'[o.id])
  }

  /** Whether the relaxation of one offer records it. */
  predicate Improves(anchors: set<string>, kept: seq<string>, best: map<string, real>, o: BoundEntry) {
    o.id !in anchors && o.id !in kept && (o.id !in best || o.bound > best[o.id])
  }

  lemma RaiseByOne(anchors: set<string>, kept: seq<string>, offers: seq<BoundEntry>, o: BoundEntry,
                   best: map<string, real>, best': map<string, real>)
    requires Raised(anchors, kept, offers, best, best')
    ensures Raised(anchors, kept, offers + [o], best,
                   if Improves(anchors, kept, best', o) then best'[o.id := o.bound] else best')
  {
    assert o in offers + [o] && forall x :: x in offers ==> x in offers + [o];
  }

  lemma CoverOneMore(anchors: set<string>, kept: seq<string>, best: map<string, real>, h: seq<BoundEntry>,
                     o: BoundEntry)
    requires HeapCovers(anchors, kept, best, h) && Improves(anchors, kept, best, o)
    ensures HeapCovers(anchors, kept, best[o.id := o.bound], h + [o])
  {
  }

  method PushAll(anchors: set<string>, kept: seq<string>, offers: seq<BoundEntry>,
                 best: map<string, real>, h: seq<BoundEntry>)
    returns (best': map<string, real>, h': seq<BoundEntry>)
    requires HeapCovers(anchors, kept, best, h)
    ensures Raised(anchors, kept, offers, best, best')
    ensures HeapCovers(anchors, kept, best', h')
  {
    best', h' := best, h;
    for i := 0 to |offers|
      invariant Raised(anchors, kept, offers[..i], best, best')
      invariant HeapCovers(anchors, kept, best', h')
    {
      var o := offers[i];
      assert offers[..i + 1] == offers[..i] + [o];
      RaiseByOne(anchors, kept, offers[..i], o, best, best');
      if Improves(anchors, kept, best', o) {
        CoverOneMore(anchors, kept, best', h', o);
        best' := best'[o.id := o.bound];
        h' := h' + [o];
      }
    }
    assert offers[..|offers|] == offers;
  }

  // ----- Why the first frontier node is final -----

  /** A trail continued by one edge is worth no more than what that edge is offered. */
  lemma OfferCovers(g: Graph, p: seq<Step>, bound: real)
    requires p != [] && Exists(g, p[0]) && Strength(g, p[1..]) <= bound
    ensures Strength(g, p) <= Offer(bound, Taken(g, p[0])).bound
  {
    ThroughMonotone(Strength(g, p[1..]), bound, Taken(g, p[0]).weight);
  }

  /** Any trail from outside the settled set crosses into it at some frontier node, whose
      recorded bound the trail cannot beat. */
  lemma {:induction false} Crossing(g: Graph, anchors: set<string>, kept: seq<string>, best: map<string, real>,
                                    v: string, p: seq<Step>) returns (y: string)
    requires Expanded(g, anchors, kept, best) && Final(g, anchors, kept, best)
    requires !Settled(anchors, kept, v) && Trail(g, anchors, v, p)
    ensures y in best && !Settled(anchors, kept, y) && Strength(g, p) <= best[y]
    decreases p
  {
    var u, c := p[0].to, Taken(g, p[0]);
    if Settled(anchors, kept, u) {
      y := v;
      assert c in In(g, u) && Relaxed(g, anchors, kept, best, u);
      assert Strength(g, p[1..]) <= Passes(anchors, best, u) by {
        assert u !in anchors ==> Trail(g, anchors, u, p[1..]) && Strongest(g, anchors, u, best[u]);
      }
      OfferCovers(g, p, Passes(anchors, best, u));
    } else {
      y := Crossing(g, anchors, kept, best, u, p[1..]);
      assert Strength(g, p) <= Strength(g, p[1..]);
    }
  }

  /** No trail from outside the settled set beats the heap's first entry. */
  lemma FirstIsStrongest(g: Graph, anchors: set<string>, kept: seq<string>, best: map<string, real>,
                         h: seq<BoundEntry>, top: BoundEntry, v: string, p: seq<Step>)
    requires Expanded(g, anchors, kept, best) && Final(g, anchors, kept, best)
    requires HeapCovers(anchors, kept, best, h) && forall e :: e in h ==> NotAfter(top, e)
    requires !Settled(anchors, kept, v) && Trail(g, anchors, v, p)
    ensures Strength(g, p) <= top.bound
  {
    var y := Crossing(g, anchors, kept, best, v, p);
    assert BoundEntry(y, best[y]) in h;
  }

  /** The heap's first entry, when it is not stale, is the node `Next` names. */
  lemma FirstIsNext(g: Graph, anchors: set<string>, kept: seq<string>, best: map<string, real>,
                    h: seq<BoundEntry>, top: BoundEntry)
    requires Expanded(g, anchors, kept, best) && AllOffered(g, anchors, kept, best)
    requires HeapCovers(anchors, kept, best, h) && Fresh(anchors, kept, best, h, top)
    ensures Next(g, anchors, kept, best, top.id)
  {
    forall x, b | !Settled(anchors, kept, x) && Offered(g, anchors, kept, best, x, b)
      ensures NotAfter(top, BoundEntry(x, b))
    {
      var u, c :| Settled(anchors, kept, u) && c in In(g, u) &&
                  Offer(Passes(anchors, best, u), c) == BoundEntry(x, b);
      assert Relaxed(g, anchors, kept, best, u);
      var e := BoundEntry(x, best[x]);
      assert e in h && NotAfter(e, BoundEntry(x, b));
      BeforeOrders(top, e, BoundEntry(x, b));
    }
  }

  // ----- Settling one node keeps the invariant -----

  ghost predicate SameOn(kept: seq<string>, best: map<string, real>, best': map<string, real>) {
    forall k :: k in kept ==> k in best && k in best' && best[k] == best'[k]
  }

  lemma OfferedStable(g: Graph, anchors: set<string>, kept: seq<string>, kept': seq<string>,
                      best: map<string, real>, best': map<string, real>, x: string, b: real)
    requires SameOn(kept, best, best') && forall k :: k in kept ==> k in kept'
    requires Offered(g, anchors, kept, best, x, b)
    ensures Offered(g, anchors, kept', best', x, b)
  {
    var u, c :| Settled(anchors, kept, u) && c in In(g, u) &&
                  Offer(Passes(anchors, best, u), c) == BoundEntry(x, b);
    assert Passes(anchors, best', u) == Passes(anchors, best, u);
  }

  lemma NextStable(g: Graph, anchors: set<string>, order: seq<string>, v: string,
                   best: map<string, real>, best': map<string, real>)
    requires SameOn(order + [v], best, best')
    requires Next(g, anchors, order, best, v)
    ensures Next(g, anchors, order, best', v)
  {
    assert forall k :: k in order ==> k in order + [v];
    assert v in order + [v];
    OfferedStable(g, anchors, order, order, best, best', v, best[v]);
    forall x, b | !Settled(anchors, order, x) && Offered(g, anchors, order, best', x, b)
      ensures NotAfter(BoundEntry(v, best'[v]), BoundEntry(x, b))
    {
      OfferedStable(g, anchors, order, order, best', best, x, b);
    }
  }

  lemma CanonicalExtends(g: Graph, anchors: set<string>, kept: seq<string>, v: string,
                         best: map<string, real>, best': map<string, real>)
    requires SameOn(kept + [v], best, best')
    requires Canonical(g, anchors, kept, best) && Next(g, anchors, kept, best, v)
    ensures Canonical(g, anchors, kept + [v], best')
  {
    var kept' := kept + [v];
    forall i | 0 <= i < |kept'| ensures Next(g, anchors, kept'[..i], best', kept'[i]) {
      assert kept'[..i] == kept[..i];
      assert kept == kept[..|kept|];
      assert forall k :: k in kept[..i] + [kept'[i]] ==> k in kept';
      NextStable(g, anchors, kept[..i], kept'[i], best, best');
    }
  }

  lemma WitnessExtends(g: Graph, anchors: set<string>, best: map<string, real>, u: string, c: Contribution)
    requires u in anchors || (u in best && Witnessed(g, anchors, u, best[u]))
    requires c in In(g, u)
    ensures Witnessed(g, anchors, c.from, Offer(Passes(anchors, best, u), c).bound)
  {
    var k :| 0 <= k < |In(g, u)| && In(g, u)[k] == c;
    var tail: seq<Step> := [];
    if u !in anchors {
      tail :| Trail(g, anchors, u, tail) && Strength(g, tail) == best[u];
    }
    var p := [Step(u, k)] + tail;
    assert p[1..] == tail && Taken(g, p[0]) == c;
    assert Strength(g, tail) == Passes(anchors, best, u);
    assert Strength(g, p) == Offer(Passes(anchors, best, u), c).bound;
    assert Trail(g, anchors, c.from, p);
  }

  /** `offers` is exactly what the settled node `v` offers its contributors. */
  ghost predicate OffersOf(g: Graph, anchors: set<string>, best: map<string, real>, v: string,
                           offers: seq<BoundEntry>) {
    && (forall c :: c in In(g, v) ==> Offer(Passes(anchors, best, v), c) in offers)
    && (forall o :: o in offers ==> exists c :: c in In(g, v) && o == Offer(Passes(anchors, best, v), c))
  }

  lemma OffersAreOffers(g: Graph, anchors: set<string>, best: map<string, real>, v: string)
    ensures OffersOf(g, anchors, best, v, Offers(In(g, v), Passes(anchors, best, v)))
  {
    var ins, offers := In(g, v), Offers(In(g, v), Passes(anchors, best, v));
    forall c | c in ins ensures Offer(Passes(anchors, best, v), c) in offers {
      var i :| 0 <= i < |ins| && ins[i] == c;
      assert offers[i] in offers;
    }
    forall o | o in offers
      ensures exists c :: c in ins && o == Offer(Passes(anchors, best, v), c)
    {
      var i :| 0 <= i < |offers| && offers[i] == o;
      assert ins[i] in ins;
    }
  }

  lemma OffersShrink(g: Graph, anchors: set<string>, best: map<string, real>, v: string, offers: seq<BoundEntry>,
                     o: BoundEntry)
    requires OffersOf(g, anchors, best, v, offers) && o in offers
    requires 0.0 <= Passes(anchors, best, v)
    ensures 0.0 <= o.bound <= Passes(anchors, best, v)
  {
    var c :| c in In(g, v) && o == Offer(Passes(anchors, best, v), c);
  }

  lemma OffersWitnessed(g: Graph, anchors: set<string>, kept: seq<string>, best: map<string, real>,
                        v: string, offers: seq<BoundEntry>, o: BoundEntry)
    requires OffersOf(g, anchors, best, v, offers) && o in offers
    requires Settled(anchors, kept, v)
    requires v in anchors || (v in best && Witnessed(g, anchors, v, best[v]))
    ensures Offered(g, anchors, kept, best, o.id, o.bound)
    ensures Witnessed(g, anchors, o.id, o.bound)
  {
    var c :| c in In(g, v) && o == Offer(Passes(anchors, best, v), c);
    WitnessExtends(g, anchors, best, v, c);
  }

  lemma RaisedKeepsBounds(anchors: set<string>, kept: seq<string>, best: map<string, real>,
                          offers: seq<BoundEntry>, best': map<string, real>)
    requires WellKept(anchors, kept, best) && Raised(anchors, kept, offers, best, best')
    requires forall o :: o in offers ==> 0.0 <= o.bound <= 1.0
    ensures WellKept(anchors, kept, best') && SameOn(kept, best, best')
    ensures Descending(kept, best) ==> Descending(kept, best')
  {
    forall k | k in kept ensures k in best' && best[k] == best'[k] {
      assert Settled(anchors, kept, k);
    }
    forall x | x in best' ensures x !in anchors && 0.0 <= best'[x] <= 1.0 {
      assert x in anchors ==> Settled(anchors, kept, x);
    }
  }

  lemma RaisedKeepsFrontier(anchors: set<string>, kept: seq<string>, best: map<string, real>,
                            offers: seq<BoundEntry>, best': map<string, real>, low: real)
    requires WellKept(anchors, kept, best) && Raised(anchors, kept, offers, best, best')
    requires SameOn(kept, best, best')
    requires forall k :: k in kept ==> low <= best[k]
    requires forall x :: x in best && !Settled(anchors, kept, x) ==> best[x] <= low
    requires forall o :: o in offers ==> o.bound <= low
    ensures forall k :: k in kept ==> k in best'
    ensures FrontierBelow(anchors, kept, best')
  {
  }

  lemma RaisedKeepsOffers(g: Graph, anchors: set<string>, kept: seq<string>, best: map<string, real>,
                          offers: seq<BoundEntry>, best': map<string, real>)
    requires Raised(anchors, kept, offers, best, best') && SameOn(kept, best, best')
    requires AllOffered(g, anchors, kept, best) && AllWitnessed(g, anchors, best)
    requires forall o :: o in offers ==> Offered(g, anchors, kept, best, o.id, o.bound)
    requires forall o :: o in offers ==> Witnessed(g, anchors, o.id, o.bound)
    ensures AllOffered(g, anchors, kept, best') && AllWitnessed(g, anchors, best')
  {
    forall x | x in best'
      ensures Offered(g, anchors, kept, best', x, best'[x])
      ensures Witnessed(g, anchors, x, best'[x])
    {
      var o := BoundEntry(x, best'[x]);
      assert (x in best && best'[x] == best[x]) || o in offers;
      assert Offered(g, anchors, kept, best, o.id, o.bound);
      OfferedStable(g, anchors, kept, kept, best, best', x, best'[x]);
    }
  }

  lemma RaisedKeepsRelaxed(g: Graph, anchors: set<string>, kept: seq<string>, best: map<string, real>,
                           v: string, offers: seq<BoundEntry>, best': map<string, real>, u: string)
    requires Raised(anchors, kept, offers, best, best') && SameOn(kept, best, best')
    requires Settled(anchors, kept, u) && OffersOf(g, anchors, best, v, offers)
    requires u != v ==> Relaxed(g, anchors, kept, best, u)
    ensures Relaxed(g, anchors, kept, best', u)
  {
    assert Passes(anchors, best', u) == Passes(anchors, best, u);
    forall c | c in In(g, u) && !Settled(anchors, kept, c.from)
      ensures c.from in best' && Offer(Passes(anchors, best', u), c).bound <= best'[c.from]
    {
      if u == v {
        assert Offer(Passes(anchors, best, u), c) in offers;
      }
    }
  }

  lemma SettledBounds(anchors: set<string>, kept: seq<string>, best: map<string, real>,
                      h: seq<BoundEntry>, top: BoundEntry)
    requires WellKept(anchors, kept, best) && Descending(kept, best) && FrontierBelow(anchors, kept, best)
    requires HeapCovers(anchors, kept, best, h) && Fresh(anchors, kept, best, h, top)
    ensures WellKept(anchors, kept + [top.id], best) && Descending(kept + [top.id], best)
    ensures forall k :: k in kept + [top.id] ==> top.bound <= best[k]
    ensures forall x :: x in best && !Settled(anchors, kept + [top.id], x) ==> best[x] <= top.bound
  {
    forall x | x in best && !Settled(anchors, kept, x) ensures best[x] <= top.bound {
      assert BoundEntry(x, best[x]) in h;
    }
  }

  lemma SettledOffers(g: Graph, anchors: set<string>, kept: seq<string>, best: map<string, real>, v: string)
    requires forall k :: k in kept ==> k in best
    requires AllOffered(g, anchors, kept, best)
    ensures AllOffered(g, anchors, kept + [v], best)
  {
    forall x | x in best ensures Offered(g, anchors, kept + [v], best, x, best[x]) {
      OfferedStable(g, anchors, kept, kept + [v], best, best, x, best[x]);
    }
  }

  lemma SettleKeepsBounds(g: Graph, anchors: set<string>, kept: seq<string>, best: map<string, real>,
                          h: seq<BoundEntry>, top: BoundEntry, offers: seq<BoundEntry>, best': map<string, real>)
    requires WellKept(anchors, kept, best) && Descending(kept, best) && FrontierBelow(anchors, kept, best)
    requires HeapCovers(anchors, kept, best, h) && Fresh(anchors, kept, best, h, top)
    requires OffersOf(g, anchors, best, top.id, offers)
    requires Raised(anchors, kept + [top.id], offers, best, best')
    ensures WellKept(anchors, kept + [top.id], best') && Descending(kept + [top.id], best')
    ensures FrontierBelow(anchors, kept + [top.id], best') && SameOn(kept + [top.id], best, best')
  {
    SettledBounds(anchors, kept, best, h, top);
    forall o | o in offers ensures 0.0 <= o.bound <= top.bound {
      OffersShrink(g, anchors, best, top.id, offers, o);
    }
    RaisedKeepsBounds(anchors, kept + [top.id], best, offers, best');
    RaisedKeepsFrontier(anchors, kept + [top.id], best, offers, best', top.bound);
  }

  lemma SettleKeepsOffers(g: Graph, anchors: set<string>, kept: seq<string>, best: map<string, real>,
                          v: string, offers: seq<BoundEntry>, best': map<string, real>)
    requires AllOffered(g, anchors, kept, best) && AllWitnessed(g, anchors, best) && v in best
    requires OffersOf(g, anchors, best, v, offers) && Raised(anchors, kept + [v], offers, best, best')
    requires SameOn(kept + [v], best, best')
    ensures AllOffered(g, anchors, kept + [v], best') && AllWitnessed(g, anchors, best')
  {
    SettledOffers(g, anchors, kept, best, v);
    forall o | o in offers
      ensures Offered(g, anchors, kept + [v], best, o.id, o.bound) && Witnessed(g, anchors, o.id, o.bound)
    {
      OffersWitnessed(g, anchors, kept + [v], best, v, offers, o);
    }
    RaisedKeepsOffers(g, anchors, kept + [v], best, offers, best');
  }

  lemma SettleKeepsExpanded(g: Graph, anchors: set<string>, kept: seq<string>, best: map<string, real>,
                            v: string, offers: seq<BoundEntry>, best': map<string, real>)
    requires Expanded(g, anchors, kept, best)
    requires OffersOf(g, anchors, best, v, offers) && Raised(anchors, kept + [v], offers, best, best')
    requires SameOn(kept + [v], best, best')
    ensures Expanded(g, anchors, kept + [v], best')
  {
    forall u | Settled(anchors, kept + [v], u) ensures Relaxed(g, anchors, kept + [v], best', u) {
      if u != v {
        assert Relaxed(g, anchors, kept, best, u);
        assert Relaxed(g, anchors, kept + [v], best, u);
      }
      RaisedKeepsRelaxed(g, anchors, kept + [v], best, v, offers, best', u);
    }
  }

  lemma SettleKeepsFinal(g: Graph, anchors: set<string>, kept: seq<string>, best: map<string, real>,
                         h: seq<BoundEntry>, top: BoundEntry, best': map<string, real>)
    requires Expanded(g, anchors, kept, best) && Final(g, anchors, kept, best)
    requires HeapCovers(anchors, kept, best, h) && Fresh(anchors, kept, best, h, top)
    requires Witnessed(g, anchors, top.id, top.bound) && SameOn(kept + [top.id], best, best')
    ensures Final(g, anchors, kept + [top.id], best')
  {
    forall p | Trail(g, anchors, top.id, p) ensures Strength(g, p) <= top.bound {
      FirstIsStrongest(g, anchors, kept, best, h, top, top.id, p);
    }
    assert Strongest(g, anchors, top.id, top.bound);
  }

  /** Settling a fresh first entry and pushing what it offers keeps the invariant. */
  lemma SettleKeepsInv(g: Graph, anchors: set<string>, kept: seq<string>, best: map<string, real>,
                       h: seq<BoundEntry>, top: BoundEntry, best': map<string, real>, h': seq<BoundEntry>)
    requires Inv(g, anchors, kept, best, h) && Fresh(anchors, kept, best, h, top)
    requires Raised(anchors, kept + [top.id], Offers(In(g, top.id), top.bound), best, best')
    requires HeapCovers(anchors, kept + [top.id], best', h')
    ensures Inv(g, anchors, kept + [top.id], best', h')
  {
    var v, offers := top.id, Offers(In(g, top.id), top.bound);
    assert Passes(anchors, best, v) == top.bound;
    OffersAreOffers(g, anchors, best, v);
    SettleKeepsBounds(g, anchors, kept, best, h, top, offers, best');
    SettleKeepsOffers(g, anchors, kept, best, v, offers, best');
    SettleKeepsExpanded(g, anchors, kept, best, v, offers, best');
    SettleKeepsFinal(g, anchors, kept, best, h, top, best');
    FirstIsNext(g, anchors, kept, best, h, top);
    CanonicalExtends(g, anchors, kept, v, best, best');
  }

  // ----- The walk -----

  ghost function Contributors(g: Graph): set<string> {
    set id, c | id in g && c in g[id] :: c.from
  }

  /** Every non-anchor message some trail leads from. */
  ghost function ReachSet(g: Graph, anchors: set<string>): set<string> {
    set v | v in Contributors(g) && Reachable(g, anchors, v)
  }

  lemma ReachSetIsComplete(g: Graph, anchors: set<string>, v: string)
    ensures v in ReachSet(g, anchors) <==> Reachable(g, anchors, v)
  {
    if Reachable(g, anchors, v) {
      var p: seq<Step> :| Trail(g, anchors, v, p);
      assert p[0].to in g && Taken(g, p[0]) in g[p[0].to];
    }
  }

  ghost predicate Seeded(g: Graph, anchors: set<string>, done: seq<string>, best: map<string, real>,
                         h: seq<BoundEntry>) {
    && WellKept(anchors, [], best)
    && AllOffered(g, anchors, [], best)
    && AllWitnessed(g, anchors, best)
    && (forall u :: u in done ==> Relaxed(g, anchors, [], best, u))
    && HeapCovers(anchors, [], best, h)
  }

  lemma SeedKeeps(g: Graph, anchors: set<string>, done: seq<string>, a: string, best: map<string, real>,
                  h: seq<BoundEntry>, best': map<string, real>, h': seq<BoundEntry>)
    requires Seeded(g, anchors, done, best, h) && a in anchors && forall u :: u in done ==> u in anchors
    requires Raised(anchors, [], Offers(In(g, a), 1.0), best, best')
    requires HeapCovers(anchors, [], best', h')
    ensures Seeded(g, anchors, done + [a], best', h')
  {
    var offers := Offers(In(g, a), 1.0);
    OffersAreOffers(g, anchors, best, a);
    forall o | o in offers
      ensures 0.0 <= o.bound <= 1.0
      ensures Offered(g, anchors, [], best, o.id, o.bound)
      ensures Witnessed(g, anchors, o.id, o.bound)
    {
      OffersShrink(g, anchors, best, a, offers, o);
      OffersWitnessed(g, anchors, [], best, a, offers, o);
    }
    RaisedKeepsBounds(anchors, [], best, offers, best');
    RaisedKeepsOffers(g, anchors, [], best, offers, best');
    forall u | u in done + [a] ensures Relaxed(g, anchors, [], best', u) {
      assert Settled(anchors, [], u);
      RaisedKeepsRelaxed(g, anchors, [], best, a, offers, best', u);
    }
  }

  lemma StaleKeepsInv(g: Graph, anchors: set<string>, kept: seq<string>, best: map<string, real>,
                      h: seq<BoundEntry>, top: BoundEntry, rest: seq<BoundEntry>)
    requires Inv(g, anchors, kept, best, h)
    requires forall e :: e in h ==> e == top || e in rest
    requires forall e :: e in rest ==> e in h
    requires Settled(anchors, kept, top.id) || (top.id in best && top.bound < best[top.id])
    ensures Inv(g, anchors, kept, best, rest)
  {
    forall x | x in best && !Settled(anchors, kept, x) ensures BoundEntry(x, best[x]) in rest {
      assert BoundEntry(x, best[x]) in h;
    }
  }

  lemma WitnessedAreReached(g: Graph, anchors: set<string>, kept: seq<string>, best: map<string, real>,
                            h: seq<BoundEntry>)
    requires Inv(g, anchors, kept, best, h)
    ensures best.Keys <= ReachSet(g, anchors)
    ensures Members(kept) <= best.Keys
  {
    forall x | x in best ensures x in ReachSet(g, anchors) {
      assert Witnessed(g, anchors, x, best[x]);
      ReachSetIsComplete(g, anchors, x);
    }
  }

  lemma PoppedKeepsCover(anchors: set<string>, kept: seq<string>, best: map<string, real>,
                         h: seq<BoundEntry>, top: BoundEntry, rest: seq<BoundEntry>)
    requires HeapCovers(anchors, kept, best, h)
    requires forall e :: e in h ==> e == top || e in rest
    requires forall e :: e in rest ==> e in h
    ensures HeapCovers(anchors, kept + [top.id], best, rest)
  {
    forall x | x in best && !Settled(anchors, kept + [top.id], x) ensures BoundEntry(x, best[x]) in rest {
      assert !Settled(anchors, kept, x);
    }
  }

  /** A message the walk did not keep has no trail stronger than any kept message's. */
  ghost predicate KeptDominate(g: Graph, anchors: set<string>, kept: seq<string>, bound: map<string, real>)
    requires forall k :: k in kept ==> k in bound
  {
    forall x, p, k :: !Settled(anchors, kept, x) && Trail(g, anchors, x, p) && k in kept ==> Strength(g, p) <= bound[k]
  }

  lemma CountWithOneMore(kept: seq<string>, v: string, all: set<string>)
    requires Distinct(kept)
    requires Members(kept) <= all && v in all && v !in kept
    ensures |all| > |kept|
  {
    DistinctCount(kept);
    var ks := Members(kept);
    assert v !in ks && |ks + {v}| == |ks| + 1;
    SubsetCount(ks + {v}, all);
  }

  /** A fresh entry left over when the cap is reached is one reachable message too many. */
  lemma Overflow(g: Graph, anchors: set<string>, kept: seq<string>, best: map<string, real>,
                 h: seq<BoundEntry>, top: BoundEntry)
    requires Inv(g, anchors, kept, best, h) && Fresh(anchors, kept, best, h, top)
    ensures |ReachSet(g, anchors)| > |kept|
    ensures KeptDominate(g, anchors, kept, best)
  {
    WitnessedAreReached(g, anchors, kept, best, h);
    CountWithOneMore(kept, top.id, ReachSet(g, anchors));
    forall x, p, k | !Settled(anchors, kept, x) && Trail(g, anchors, x, p) && k in kept
      ensures Strength(g, p) <= best[k]
    {
      FirstIsStrongest(g, anchors, kept, best, h, top, x, p);
      assert top.bound <= best[k];
    }
  }

  /** With the frontier exhausted, every trail starts inside the settled set. */
  lemma NoTrailOutside(g: Graph, anchors: set<string>, kept: seq<string>, best: map<string, real>, x: string,
                       p: seq<Step>)
    requires Expanded(g, anchors, kept, best) && Final(g, anchors, kept, best)
    requires HeapCovers(anchors, kept, best, []) && !Settled(anchors, kept, x)
    ensures !Trail(g, anchors, x, p)
  {
    if Trail(g, anchors, x, p) {
      var y := Crossing(g, anchors, kept, best, x, p);
      assert false;
    }
  }

  lemma ReachedIsKept(g: Graph, anchors: set<string>, kept: seq<string>, best: map<string, real>, x: string)
    requires Expanded(g, anchors, kept, best) && Final(g, anchors, kept, best)
    requires HeapCovers(anchors, kept, best, []) && Reachable(g, anchors, x)
    ensures x in kept
  {
    var p :| Trail(g, anchors, x, p);
    if x !in kept { NoTrailOutside(g, anchors, kept, best, x, p); }
  }

  lemma ExhaustedDominates(g: Graph, anchors: set<string>, kept: seq<string>, best: map<string, real>)
    requires Expanded(g, anchors, kept, best) && Final(g, anchors, kept, best)
    requires HeapCovers(anchors, kept, best, [])
    ensures KeptDominate(g, anchors, kept, best)
  {
    forall x, p | !Settled(anchors, kept, x) ensures !Trail(g, anchors, x, p) {
      NoTrailOutside(g, anchors, kept, best, x, p);
    }
  }

  lemma ExhaustedIsComplete(g: Graph, anchors: set<string>, kept: seq<string>, best: map<string, real>)
    requires Inv(g, anchors, kept, best, [])
    ensures ReachSet(g, anchors) == Members(kept) && |ReachSet(g, anchors)| == |kept|
  {
    WitnessedAreReached(g, anchors, kept, best, []);
    DistinctCount(kept);
    forall x | x in ReachSet(g, anchors) ensures x in kept {
      ReachedIsKept(g, anchors, kept, best, x);
    }
  }

  method Seed(backward: map<string, seq<Edge>>, anchorIDs: seq<string>, cone: string, scope: Scope,
              anchors: set<string>)
    returns (best: map<string, real>, h: seq<BoundEntry>)
    requires anchors == Members(anchorIDs)
    ensures Inv(View(backward, cone, scope), anchors, [], best, h)
  {
    ghost var g := View(backward, cone, scope);
    best, h := map[], [];
    for i := 0 to |anchorIDs|
      invariant Seeded(g, anchors, anchorIDs[..i], best, h)
    {
      var ins := ContributorsOf(Lookup(backward, anchorIDs[i]), cone, scope);
      assert ins == In(g, anchorIDs[i]);
      ghost var best0, h0 := best, h;
      best, h := PushAll(anchors, [], Offers(ins, 1.0), best, h);
      SeedKeeps(g, anchors, anchorIDs[..i], anchorIDs[i], best0, h0, best, h);
      assert anchorIDs[..i + 1] == anchorIDs[..i] + [anchorIDs[i]];
    }
    assert anchorIDs[..|anchorIDs|] == anchorIDs;
  }

  /** What the capped walk promises about the graph it saw. */
  ghost predicate BestFirst(g: Graph, anchors: set<string>, cap: nat,
                            kept: seq<string>, bound: map<string, real>, truncated: bool)
  {
    && |kept| <= cap
    && WellKept(anchors, kept, bound)
    // Each kept message carries its strongest trail into the anchors, strongest first.
    && Final(g, anchors, kept, bound)
    && Descending(kept, bound)
    && KeptDominate(g, anchors, kept, bound)
    // The cap is reported exactly when it dropped something.
    && (truncated <==> |ReachSet(g, anchors)| > cap)
    && (!truncated ==> Members(kept) == ReachSet(g, anchors))
    && (truncated ==> |kept| == cap)
    // Every choice was forced, and every bound comes from an edge into the kept set.
    && Canonical(g, anchors, kept, bound)
    && AllOffered(g, anchors, kept, bound)
  }

  /** The capped walk. `cap` bounds how many messages it keeps. */
  method Reach(backward: map<string, seq<Edge>>, anchorIDs: seq<string>, cone: string, scope: Scope, cap: nat)
    returns (kept: seq<string>, bound: map<string, real>, truncated: bool)
    ensures BestFirst(View(backward, cone, scope), Members(anchorIDs), cap, kept, bound, truncated)
  {
    ghost var g := View(backward, cone, scope);
    var anchors := Members(anchorIDs);
    var h;
    kept, truncated := [], false;
    bound, h := Seed(backward, anchorIDs, cone, scope, anchors);
    while h != []
      invariant |kept| <= cap && !truncated
      invariant Inv(g, anchors, kept, bound, h)
      decreases cap - |kept|, |h|
    {
      var top, rest := PopFirst(h);
      if top.id in anchors || top.id in kept || top.bound < bound[top.id] {
        StaleKeepsInv(g, anchors, kept, bound, h, top, rest);
        h := rest;
      } else if |kept| >= cap {
        truncated := true;
        Overflow(g, anchors, kept, bound, h, top);
        return;
      } else {
        var ins := ContributorsOf(Lookup(backward, top.id), cone, scope);
        ghost var bound0, h0 := bound, h;
        PoppedKeepsCover(anchors, kept, bound, h, top, rest);
        bound, h := PushAll(anchors, kept + [top.id], Offers(ins, top.bound), bound, rest);
        SettleKeepsInv(g, anchors, kept, bound0, h0, top, bound, h);
        kept := kept + [top.id];
      }
    }
    ExhaustedDominates(g, anchors, kept, bound);
    ExhaustedIsComplete(g, anchors, kept, bound);
  }
}
