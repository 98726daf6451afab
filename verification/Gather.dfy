/** Collecting the delivery groups of the selected roots, and what shedding one of them does to
    the next round (rrc/assembly.go, the head of the shed loop). */
module Gather {
  import opened Messages
  import opened Protocol
  import opened Closure
  import opened Components
  import opened Delivery
  import opened Sorting
  import Ids

  /** One selected message with its score. */
  datatype Pick = Pick(id: string, score: real)

  /** What assembly has fetched for the selected messages. `corpus` is what `idx` was built from. */
  datatype Scene = Scene(
    selected: seq<Pick>,
    corpus: seq<Message>,
    byID: map<string, Message>,
    idx: Index,
    localIDs: set<string>)

  ghost predicate Sound(sc: Scene) {
    && IndexOf(sc.idx, sc.corpus) && UniqueIds(sc.corpus) && UniquePositions(sc.corpus)
    && (forall id :: id in sc.byID ==> sc.byID[id] in sc.corpus && sc.byID[id].id == id)
  }

  ghost predicate Closable(idx: Index, root: Message) {
    exists ms :: ClosureOf(idx, root, ms)
  }

  /** The closure of a root that has one. */
  ghost function ClosureSeq(idx: Index, root: Message): (ms: seq<Message>)
    ensures Closable(idx, root) ==> ClosureOf(idx, root, ms)
  {
    if ms :| ClosureOf(idx, root, ms) then ms else []
  }

  predicate Overlaps(ms: seq<Message>, ids: set<string>) {
    exists m :: m in ms && m.id in ids
  }

  ghost function Unit(sc: Scene, p: Pick): DeliveryGroup
    requires p.id in sc.byID
  {
    DeliveryGroup(p.id, [p.id], p.score, ClosureSeq(sc.idx, sc.byID[p.id]))
  }

  /** The pick still competes for delivery. */
  ghost predicate Live(sc: Scene, dropped: set<string>, p: Pick) {
    && p.id !in dropped && p.id !in sc.localIDs && p.id in sc.byID
    && !Overlaps(ClosureSeq(sc.idx, sc.byID[p.id]), sc.localIDs)
  }

  /** Groups of the live picks among `ps`, in order. */
  ghost function Units(sc: Scene, dropped: set<string>, ps: seq<Pick>): seq<DeliveryGroup> {
    if ps == [] then []
    else
      var p := ps[|ps| - 1];
      if Live(sc, dropped, p) then Units(sc, dropped, ps[..|ps| - 1]) + [Unit(sc, p)]
      else Units(sc, dropped, ps[..|ps| - 1])
  }

  /** The merged groups of one round. */
  ghost function Round(sc: Scene, dropped: set<string>): seq<DeliveryGroup> {
    Sealed(Merge(Units(sc, dropped, sc.selected)))
  }

  lemma {:induction false} UnitsAre(sc: Scene, dropped: set<string>, ps: seq<Pick>, g: DeliveryGroup)
    requires g in Units(sc, dropped, ps)
    ensures exists p :: p in ps && Live(sc, dropped, p) && g == Unit(sc, p)
  {
    var p, front := ps[|ps| - 1], ps[..|ps| - 1];
    assert ps == front + [p];
    if g in Units(sc, dropped, front) {
      UnitsAre(sc, dropped, front, g);
      var q :| q in front && Live(sc, dropped, q) && g == Unit(sc, q);
      assert q in ps;
    } else {
      assert p in ps;
    }
  }

  // ----- Shedding a group's roots removes exactly that group from the next round -----

  lemma {:induction false} RootsOfMember(gs: seq<DeliveryGroup>, ms: seq<Message>, x: string)
    ensures x in RootsOf(gs, ms) <==> exists g :: g in gs && g.messages == ms && x in g.rootIDs
  {
    if gs != [] {
      var front, last := gs[..|gs| - 1], gs[|gs| - 1];
      assert gs == front + [last];
      RootsOfMember(front, ms, x);
      if g :| g in front && g.messages == ms && x in g.rootIDs { assert g in gs; }
      if last.messages == ms && x in last.rootIDs { assert last in gs; }
    }
  }

  /** A live pick belongs to the group with closure `ms` exactly when its own closure is `ms`. */
  lemma LivePickInGroup(sc: Scene, dropped: set<string>, ms: seq<Message>, p: Pick)
    requires p in sc.selected && Live(sc, dropped, p) && Unit(sc, p) in Units(sc, dropped, sc.selected)
    ensures p.id in RootsOf(Units(sc, dropped, sc.selected), ms) <==> Unit(sc, p).messages == ms
  {
    var gs := Units(sc, dropped, sc.selected);
    RootsOfMember(gs, ms, p.id);
    if p.id in RootsOf(gs, ms) {
      var g :| g in gs && g.messages == ms && p.id in g.rootIDs;
      UnitsAre(sc, dropped, sc.selected, g);
      var q :| q in sc.selected && Live(sc, dropped, q) && g == Unit(sc, q);
      assert q.id == p.id;
    }
  }

  lemma {:induction false} UnitIsListed(sc: Scene, dropped: set<string>, ps: seq<Pick>, p: Pick)
    requires p in ps && Live(sc, dropped, p)
    ensures Unit(sc, p) in Units(sc, dropped, ps)
  {
    var last, front := ps[|ps| - 1], ps[..|ps| - 1];
    assert ps == front + [last];
    if p != last { UnitIsListed(sc, dropped, front, p); }
  }

  lemma WithoutSnoc(gs: seq<DeliveryGroup>, g: DeliveryGroup, ms: seq<Message>)
    ensures Without(gs + [g], ms) == if g.messages == ms then Without(gs, ms) else Without(gs, ms) + [g]
  {
    WithoutAppends(gs, [g], ms);
    assert [g][1..] == [];
    assert Without([g], ms) == if g.messages == ms then [] else [g];
  }

  lemma {:induction false} UnitsWithout(sc: Scene, dropped: set<string>, ms: seq<Message>, roots: set<string>, n: nat)
    requires n <= |sc.selected|
    requires roots == set x | x in RootsOf(Units(sc, dropped, sc.selected), ms)
    ensures Units(sc, dropped + roots, sc.selected[..n]) == Without(Units(sc, dropped, sc.selected[..n]), ms)
  {
    if n > 0 {
      var ps, p := sc.selected[..n], sc.selected[n - 1];
      assert ps[..n - 1] == sc.selected[..n - 1];
      UnitsWithout(sc, dropped, ms, roots, n - 1);
      if Live(sc, dropped, p) {
        assert Units(sc, dropped, ps) == Units(sc, dropped, sc.selected[..n - 1]) + [Unit(sc, p)];
        UnitIsListed(sc, dropped, sc.selected, p);
        LivePickInGroup(sc, dropped, ms, p);
        WithoutSnoc(Units(sc, dropped, sc.selected[..n - 1]), Unit(sc, p), ms);
      }
    }
  }

  lemma SealedSplit(a: seq<DeliveryGroup>, i: nat)
    requires i < |a|
    ensures Sealed(a[..i] + a[i + 1..]) == Sealed(a)[..i] + Sealed(a)[i + 1..]
  {
  }

  /** The roots a group stands for. */
  function RootSet(g: DeliveryGroup): set<string> {
    set x | x in g.rootIDs
  }

  lemma RootsSurviveSealing(o: DeliveryGroup, g: DeliveryGroup)
    requires g == o.(rootIDs := Ids.Sort(o.rootIDs))
    ensures RootSet(g) == RootSet(o)
  {
    SortMembers(Ids.AtMost, o.rootIDs);
  }

  lemma RootsOfRound(sc: Scene, dropped: set<string>, i: nat)
    requires i < |Round(sc, dropped)|
    ensures RootSet(Round(sc, dropped)[i]) ==
            set x | x in RootsOf(Units(sc, dropped, sc.selected), Round(sc, dropped)[i].messages)
  {
    var units := Units(sc, dropped, sc.selected);
    MergeCollects(units, Merge(units)[i]);
    RootsSurviveSealing(Merge(units)[i], Round(sc, dropped)[i]);
  }

  lemma NextRound(sc: Scene, dropped: set<string>, i: nat, roots: set<string>)
    requires i < |Round(sc, dropped)|
    requires roots == set x | x in RootsOf(Units(sc, dropped, sc.selected), Round(sc, dropped)[i].messages)
    ensures Round(sc, dropped + roots) == Round(sc, dropped)[..i] + Round(sc, dropped)[i + 1..]
  {
    var units := Units(sc, dropped, sc.selected);
    var ms := Merge(units)[i].messages;
    UnitsWithout(sc, dropped, ms, roots, |sc.selected|);
    assert sc.selected[..|sc.selected|] == sc.selected;
    MergeWithout(units, ms);
    MergeIsExact(units);
    WithoutIsOneLess(Merge(units), i);
    SealedSplit(Merge(units), i);
  }

  /** Dropping every root of one group leaves the next round with the other groups, unchanged. */
  lemma ShedRemovesGroup(sc: Scene, dropped: set<string>, g: DeliveryGroup)
    requires g in Round(sc, dropped)
    ensures multiset(Round(sc, dropped)) == multiset(Round(sc, dropped + RootSet(g))) + multiset{g}
  {
    var round := Round(sc, dropped);
    var i :| 0 <= i < |round| && round[i] == g;
    RootsOfRound(sc, dropped, i);
    NextRound(sc, dropped, i, RootSet(g));
    SplitAt(round, i);
  }

  // ----- Rounds consist of disjoint closures outside local context -----

  lemma RoundMember(sc: Scene, dropped: set<string>, g: DeliveryGroup) returns (p: Pick)
    requires g in Round(sc, dropped)
    ensures p in sc.selected && Live(sc, dropped, p) && g.messages == Unit(sc, p).messages
    ensures g.rootID == p.id && g.score == p.score
  {
    var units := Units(sc, dropped, sc.selected);
    var i :| 0 <= i < |Merge(units)| && Round(sc, dropped)[i] == g;
    MergeCollects(units, Merge(units)[i]);
    var u :| u in units && u.messages == g.messages && u.rootID == g.rootID && u.score == g.score;
    UnitsAre(sc, dropped, sc.selected, u);
    p :| p in sc.selected && Live(sc, dropped, p) && u == Unit(sc, p);
  }

  /** Every live pick has a closure. */
  ghost predicate AllClosable(sc: Scene, dropped: set<string>) {
    forall p :: p in sc.selected && p.id !in dropped && p.id !in sc.localIDs ==>
                  p.id in sc.byID && Closable(sc.idx, sc.byID[p.id])
  }

  ghost predicate ApartGroups(gs: seq<DeliveryGroup>) {
    forall g, h, m :: g in gs && h in gs && m in g.messages && m in h.messages ==> g == h
  }

  lemma RoundClosure(sc: Scene, dropped: set<string>, g: DeliveryGroup) returns (root: Message)
    requires Sound(sc) && AllClosable(sc, dropped) && g in Round(sc, dropped)
    ensures root in sc.corpus && ClosureOf(sc.idx, root, g.messages)
    ensures forall m :: m in g.messages ==> m in sc.corpus && m.id !in sc.localIDs
    ensures g.rootID == root.id && g.rootID !in dropped
  {
    var p := RoundMember(sc, dropped, g);
    root := sc.byID[p.id];
    forall m | m in g.messages ensures m in sc.corpus {
      ClosureIsIndexed(sc.idx, sc.corpus, root, g.messages, m);
    }
  }

  lemma SharedMessageSameGroup(sc: Scene, dropped: set<string>, g: DeliveryGroup, h: DeliveryGroup, m: Message)
    requires Sound(sc) && AllClosable(sc, dropped) && g in Round(sc, dropped) && h in Round(sc, dropped)
    requires m in g.messages && m in h.messages
    ensures g == h
  {
    var round := Round(sc, dropped);
    var r := RoundClosure(sc, dropped, g);
    var r' := RoundClosure(sc, dropped, h);
    EqualOrDisjoint(sc.idx, sc.corpus, r, g.messages, r', h.messages);
    var i :| 0 <= i < |round| && round[i] == g;
    var j :| 0 <= j < |round| && round[j] == h;
    if i != j { RoundsDiffer(sc, dropped, i, j); }
  }

  lemma RoundsDiffer(sc: Scene, dropped: set<string>, i: nat, j: nat)
    requires i < |Round(sc, dropped)| && j < |Round(sc, dropped)| && i != j
    ensures Round(sc, dropped)[i].messages != Round(sc, dropped)[j].messages
  {
    MergeIsExact(Units(sc, dropped, sc.selected));
  }

  lemma RoundIsApart(sc: Scene, dropped: set<string>)
    requires Sound(sc) && AllClosable(sc, dropped)
    ensures ApartGroups(Round(sc, dropped)) && Distinct(Round(sc, dropped))
    ensures forall g :: g in Round(sc, dropped) ==> Distinct(g.messages)
  {
    var round := Round(sc, dropped);
    forall g, h, m | g in round && h in round && m in g.messages && m in h.messages ensures g == h {
      SharedMessageSameGroup(sc, dropped, g, h, m);
    }
    forall g | g in round ensures Distinct(g.messages) {
      var r := RoundClosure(sc, dropped, g);
    }
    forall i, j | 0 <= i < j < |round| ensures round[i] != round[j] {
      RoundsDiffer(sc, dropped, i, j);
    }
  }

  // ----- Gathering one round -----

  datatype Gathered = Groups(groups: seq<DeliveryGroup>) | NotFetched(id: string) | Unpaired(at: Message, block: Block)

  lemma ClosureIsClosureSeq(sc: Scene, root: Message, ms: seq<Message>)
    requires Sound(sc) && root in sc.corpus && ClosureOf(sc.idx, root, ms)
    ensures Closable(sc.idx, root) && ms == ClosureSeq(sc.idx, root)
  {
    ClosureIsUnique(sc.idx, sc.corpus, root, ms, ClosureSeq(sc.idx, root));
  }

  lemma UnpairedIsNotClosable(idx: Index, root: Message, at: Message, b: Block)
    requires Needs(idx, root, at) && b in at.content && Broken(idx, at, b)
    ensures !Closable(idx, root)
  {
    if ms :| ClosureOf(idx, root, ms) {
      NeedsItself(idx, root);
      FailureIsForced(idx, root, at, b, Held(ms));
    }
  }

  ghost predicate ClosableUpTo(sc: Scene, dropped: set<string>, ps: seq<Pick>) {
    forall p :: p in ps && p.id !in dropped && p.id !in sc.localIDs ==>
                  p.id in sc.byID && Closable(sc.idx, sc.byID[p.id])
  }

  ghost predicate Competes(sc: Scene, dropped: set<string>, p: Pick) {
    p in sc.selected && p.id !in dropped && p.id !in sc.localIDs
  }

  /** Why a round cannot be gathered: a competing pick was not fetched, or needs a broken block. */
  ghost predicate Blocks(sc: Scene, dropped: set<string>, r: Gathered) {
    match r
    case Groups(_) => false
    case NotFetched(id) => id !in sc.byID && exists p :: Competes(sc, dropped, p) && p.id == id
    case Unpaired(at, block) =>
      && block in at.content && Broken(sc.idx, at, block)
      && exists p :: Competes(sc, dropped, p) && p.id in sc.byID && Needs(sc.idx, sc.byID[p.id], at)
  }

  /** Closes every competing pick in order. Fails exactly when one of them was not fetched or
      cannot be closed. */
  method GatherUnits(sc: Scene, dropped: set<string>) returns (r: Gathered)
    requires Sound(sc)
    ensures r.Groups? <==> AllClosable(sc, dropped)
    ensures r.Groups? || Blocks(sc, dropped, r)
    ensures r.Groups? ==> r.groups == Units(sc, dropped, sc.selected)
  {
    var groups := [];
    for i := 0 to |sc.selected|
      invariant groups == Units(sc, dropped, sc.selected[..i])
      invariant ClosableUpTo(sc, dropped, sc.selected[..i])
    {
      var p := sc.selected[i];
      assert sc.selected[..i + 1] == sc.selected[..i] + [p];
      assert sc.selected[..i + 1][..i] == sc.selected[..i];
      if p.id !in dropped && p.id !in sc.localIDs {
        assert Competes(sc, dropped, p);
        if p.id !in sc.byID {
          return NotFetched(p.id);
        }
        var root := sc.byID[p.id];
        NeededIsUnique(sc.idx, sc.corpus, root);
        var c := CloseGroup(sc.idx, root, p.score);
        if c.Failed? {
          UnpairedIsNotClosable(sc.idx, root, c.at, c.block);
          return Unpaired(c.at, c.block);
        }
        ClosureIsClosureSeq(sc, root, c.group.messages);
        if !Overlaps(c.group.messages, sc.localIDs) {
          groups := groups + [c.group];
        }
      }
    }
    assert sc.selected[..|sc.selected|] == sc.selected;
    r := Groups(groups);
  }

  lemma UnitsHaveOneMessagePerId(sc: Scene, dropped: set<string>)
    requires Sound(sc) && AllClosable(sc, dropped)
    ensures OneMessagePerId(Units(sc, dropped, sc.selected))
  {
    var gs := Units(sc, dropped, sc.selected);
    forall g, m | g in gs && m in g.messages ensures m in sc.corpus {
      UnitsAre(sc, dropped, sc.selected, g);
      var p :| p in sc.selected && Live(sc, dropped, p) && g == Unit(sc, p);
      ClosureIsIndexed(sc.idx, sc.corpus, sc.byID[p.id], g.messages, m);
    }
  }

  function RootPosition(sc: Scene, g: DeliveryGroup): int {
    if g.rootID in sc.byID then sc.byID[g.rootID].position else 0
  }

  // ----- What a round is, in the selection's own terms -----

  /** `ms` is the closure of a selected message that is neither dropped nor delivered, and none of its
      messages is delivered already. */
  ghost predicate Restores(sc: Scene, dropped: set<string>, p: Pick, ms: seq<Message>) {
    && p in sc.selected && p.id !in dropped && p.id !in sc.localIDs && p.id in sc.byID
    && ClosureOf(sc.idx, sc.byID[p.id], ms)
    && (forall m :: m in ms ==> m.id !in sc.localIDs)
  }

  /** `g` is the closure of some restored pick, which names it and gives it its score. */
  ghost predicate Restored(sc: Scene, dropped: set<string>, g: DeliveryGroup) {
    exists p :: Restores(sc, dropped, p, g.messages) && g.rootID == p.id && g.score == p.score
  }

  /** Some group carries the closure `ms`, has `p` among its roots and scores no less. */
  ghost predicate Listed(gs: seq<DeliveryGroup>, p: Pick, ms: seq<Message>) {
    exists g :: g in gs && g.messages == ms && p.id in g.rootIDs && p.score <= g.score
  }

  /** The groups are exactly the closures the selection restores: each one has its roots, the best of
      their scores, and the name of a root that earned it. */
  ghost predicate RestoresAll(sc: Scene, dropped: set<string>, gs: seq<DeliveryGroup>) {
    && (forall g {:trigger Restored(sc, dropped, g)} :: g in gs ==> Restored(sc, dropped, g))
    && (forall p, ms {:trigger Listed(gs, p, ms)} :: Restores(sc, dropped, p, ms) ==> Listed(gs, p, ms))
  }

  lemma RoundRestoresAll(sc: Scene, dropped: set<string>)
    requires Sound(sc) && AllClosable(sc, dropped)
    ensures RestoresAll(sc, dropped, Round(sc, dropped))
  {
    var round := Round(sc, dropped);
    forall g | g in round ensures Restored(sc, dropped, g) {
      MemberIsRestored(sc, dropped, g);
    }
    forall p, ms | Restores(sc, dropped, p, ms) ensures Listed(round, p, ms) {
      var g := RestoredIsListed(sc, dropped, p, ms);
    }
  }

  lemma MemberIsRestored(sc: Scene, dropped: set<string>, g: DeliveryGroup)
    requires Sound(sc) && AllClosable(sc, dropped) && g in Round(sc, dropped)
    ensures Restored(sc, dropped, g) && g.rootID in sc.byID
  {
    var p := RoundMember(sc, dropped, g);
    assert Restores(sc, dropped, p, g.messages);
  }

  lemma RestoredIsListed(sc: Scene, dropped: set<string>, p: Pick, ms: seq<Message>) returns (g: DeliveryGroup)
    requires Sound(sc) && Restores(sc, dropped, p, ms)
    ensures g in Round(sc, dropped) && g.messages == ms && p.id in g.rootIDs && p.score <= g.score
  {
    var units := Units(sc, dropped, sc.selected);
    ClosureIsClosureSeq(sc, sc.byID[p.id], ms);
    UnitIsListed(sc, dropped, sc.selected, p);
    var k :| 0 <= k < |units| && units[k] == Unit(sc, p);
    MergeIsExact(units);
    assert HasClosure(units, ms);
    var i :| 0 <= i < |Merge(units)| && Merge(units)[i].messages == ms;
    MergeCollects(units, Merge(units)[i]);
    g := Round(sc, dropped)[i];
    RootsOfRound(sc, dropped, i);
    RootsOfMember(units, ms, p.id);
    assert p.id in RootSet(g);
  }

  // ----- One round -----

  function ByPosition(sc: Scene): (DeliveryGroup, DeliveryGroup) -> bool {
    (a, b) => RootPosition(sc, a) <= RootPosition(sc, b)
  }

  /** In order of the position of the naming root. */
  ghost predicate InRootOrder(sc: Scene, gs: seq<DeliveryGroup>) {
    && (forall g :: g in gs ==> g.rootID in sc.byID)
    && forall i, j :: 0 <= i < j < |gs| ==> sc.byID[gs[i].rootID].position <= sc.byID[gs[j].rootID].position
  }

  lemma SortedByPosition(sc: Scene, gs: seq<DeliveryGroup>)
    requires forall g :: g in gs ==> g.rootID in sc.byID
    ensures var sorted := Sort(ByPosition(sc), gs);
            multiset(sorted) == multiset(gs) && InRootOrder(sc, sorted) && forall g :: g in sorted <==> g in gs
  {
    var le := ByPosition(sc);
    var sorted := Sort(le, gs);
    assert TotalPreorder(le);
    SortSorts(le, gs);
    SortMembers(le, gs);
    forall i, j | 0 <= i < j < |sorted|
      ensures sc.byID[sorted[i].rootID].position <= sc.byID[sorted[j].rootID].position
    {
      assert sorted[i] in sorted && sorted[j] in sorted;
      assert le(sorted[i], sorted[j]);
    }
  }

  lemma SameRestores(sc: Scene, dropped: set<string>, gs: seq<DeliveryGroup>, more: seq<DeliveryGroup>)
    requires RestoresAll(sc, dropped, gs) && forall g :: g in more <==> g in gs
    ensures RestoresAll(sc, dropped, more)
  {
    forall p, ms | Restores(sc, dropped, p, ms) ensures Listed(more, p, ms) {
      assert Listed(gs, p, ms);
    }
  }

  lemma OrderedRound(sc: Scene, dropped: set<string>)
    requires Sound(sc) && AllClosable(sc, dropped)
    ensures var gs := Sort(ByPosition(sc), Round(sc, dropped));
            multiset(gs) == multiset(Round(sc, dropped)) && InRootOrder(sc, gs) && RestoresAll(sc, dropped, gs)
  {
    var round := Round(sc, dropped);
    RoundRestoresAll(sc, dropped);
    forall g | g in round ensures g.rootID in sc.byID { MemberIsRestored(sc, dropped, g); }
    SortedByPosition(sc, round);
    SameRestores(sc, dropped, round, Sort(ByPosition(sc), round));
  }

  /** One round: close, merge, and order by the position of the naming root. It holds exactly the
      closures the selection restores. */
  method GatherRound(sc: Scene, dropped: set<string>) returns (r: Gathered)
    requires Sound(sc)
    ensures r.Groups? <==> AllClosable(sc, dropped)
    ensures r.Groups? || Blocks(sc, dropped, r)
    ensures r.Groups? ==> multiset(r.groups) == multiset(Round(sc, dropped))
    ensures r.Groups? ==> InRootOrder(sc, r.groups) && RestoresAll(sc, dropped, r.groups)
  {
    r := GatherUnits(sc, dropped);
    if r.Groups? {
      UnitsHaveOneMessagePerId(sc, dropped);
      var merged := MergeDeliveryGroups(r.groups);
      r := Groups(Sort(ByPosition(sc), merged));
      OrderedRound(sc, dropped);
    }
  }
}
