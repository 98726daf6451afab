/** One assembly: fit Local Context, then shed selected history to fit, and emit the wire
    (rrc/assembly.go). */
module Assembly {
  import opened Messages
  import opened Protocol
  import opened Closure
  import opened Components
  import opened Wire
  import opened LocalContext
  import opened Gather
  import opened Shed

  datatype Request = Request(
    anchor: Message,
    local: seq<Message>,
    currentTurn: string,
    budget: int,
    headroom: real,
    fixed: int,
    excluded: set<string>,
    lossRatio: real)

  datatype Assembled =
    | Assembled(wire: seq<Message>, localWire: seq<Message>, delivered: seq<DeliveryGroup>, shed: set<string>,
                price: real, total: int)
    | EmptyWindow
    | AnchorNotFocus
    | LocalFailed(fit: LocalFit)
    | SelectedFailed(outcome: Outcome)

  /** `m` is the last semantic message of the current turn (of the whole window when no turn is
      given). */
  ghost predicate Focus(local: seq<Message>, currentTurn: string, m: Message) {
    exists i :: 0 <= i < |local| && local[i] == m && Speaks(currentTurn, m) &&
                forall j :: i < j < |local| ==> !Speaks(currentTurn, local[j])
  }

  /** The message says or thinks something in the turn in flight, if one is given. */
  ghost predicate Speaks(currentTurn: string, m: Message) {
    (currentTurn != "" ==> m.turn == currentTurn) && SaysSomething(m)
  }

  predicate InTurn(currentTurn: string, m: Message) {
    currentTurn == "" || m.turn == currentTurn
  }

  method LastSemantic(local: seq<Message>, currentTurn: string) returns (found: bool, m: Message)
    requires local != []
    ensures found ==> Focus(local, currentTurn, m)
    ensures !found ==> forall j :: 0 <= j < |local| ==>
                !Speaks(currentTurn, local[j])
  {
    found, m := false, local[0];
    var i := |local|;
    while i > 0
      invariant 0 <= i <= |local|
      invariant forall j :: i <= j < |local| ==> !Speaks(currentTurn, local[j])
    {
      i := i - 1;
      if InTurn(currentTurn, local[i]) && HasSemanticBlock(local[i].content) {
        return true, local[i];
      }
    }
  }

  /** Truncation of the budget to its headroom; the conversion rounds toward zero. */
  function Effective(budget: int, headroom: real): int {
    if 0.0 < headroom <= 1.0 then Truncate(budget as real * headroom) else budget
  }

  function Truncate(x: real): int {
    if x >= 0.0 then x.Floor else -((-x).Floor)
  }

  /** With a headroom in (0, 1] the budget shrinks to that share of it, rounded toward zero; any other
      headroom leaves it alone. */
  lemma EffectiveIsShare(budget: int, headroom: real)
    ensures !(0.0 < headroom <= 1.0) ==> Effective(budget, headroom) == budget
    ensures 0.0 < headroom <= 1.0 && budget >= 0 ==>
              0 <= Effective(budget, headroom) <= budget &&
              Effective(budget, headroom) as real <= budget as real * headroom < (Effective(budget, headroom) +
                          1) as real
    ensures 0.0 < headroom <= 1.0 && budget < 0 ==>
              budget <= Effective(budget, headroom) <= 0 &&
              (Effective(budget, headroom) - 1) as real < budget as real * headroom <= Effective(budget,
                          headroom) as real
  {
    if 0.0 < headroom <= 1.0 {
      var b := budget as real;
      if budget >= 0 {
        assert b * headroom >= 0.0 && b * (1.0 - headroom) >= 0.0;
        assert b * headroom <= b;
      } else {
        assert (-b) * headroom > 0.0 && (-b) * (1.0 - headroom) >= 0.0;
        assert (-b) * headroom == -(b * headroom);
        assert -(b * headroom) <= -b;
      }
    }
  }

  function IdsOf(gs: seq<DeliveryGroup>): set<string> {
    set g, m | g in gs && m in g.messages :: m.id
  }

  // ----- The wire -----

  lemma ConcatStaysClosed(a: seq<Message>, b: seq<Message>)
    requires ProtocolClosed(a) && ProtocolClosed(b)
    ensures ProtocolClosed(a + b)
  {
    var w := a + b;
    forall m, c | m in w && c in m.content && c.ToolCall?
      ensures exists x :: x in w && Answers(x, Key(m.thread, c.id))
    {
      var s := if m in a then a else b;
      var x :| x in s && Answers(x, Key(m.thread, c.id));
      assert x in w;
    }
    forall m, c | m in w && c in m.content && c.ToolResult?
      ensures exists x :: x in w && Calls(x, Key(m.thread, c.callID))
    {
      var s := if m in a then a else b;
      var x :| x in s && Calls(x, Key(m.thread, c.callID));
      assert x in w;
    }
  }

  /** A wire that carries whole closed groups is protocol-closed. */
  lemma WholeGroupsStayClosed(gs: seq<DeliveryGroup>, already: set<string>, wire: seq<Message>)
    requires WireOf(gs, already, wire) && forall g, m :: g in gs && m in g.messages ==> m.id !in already
    requires forall g :: g in gs ==> ProtocolClosed(g.messages)
    ensures ProtocolClosed(wire)
  {
    forall m, c | m in wire && c in m.content && c.ToolCall?
      ensures exists x :: x in wire && Answers(x, Key(m.thread, c.id))
    {
      var g :| g in gs && m in g.messages;
      var x :| x in g.messages && Answers(x, Key(m.thread, c.id));
      assert InGroups(gs, x);
    }
    forall m, c | m in wire && c in m.content && c.ToolResult?
      ensures exists x :: x in wire && Calls(x, Key(m.thread, c.callID))
    {
      var g :| g in gs && m in g.messages;
      var x :| x in g.messages && Calls(x, Key(m.thread, c.callID));
      assert InGroups(gs, x);
    }
  }

  lemma CoveringGroupIsClosed(idx: Index, corpus: seq<Message>, roots: seq<Message>, gs: seq<DeliveryGroup>,
                              g: DeliveryGroup)
    requires IndexOf(idx, corpus) && Covers(idx, roots, gs) && g in gs
    ensures ProtocolClosed(g.messages)
  {
    assert ClosesOne(idx, roots, g);
    var r :| r in roots && ClosureOf(idx, r, g.messages);
    ClosureIsProtocolClosed(idx, corpus, r, g.messages);
  }

  lemma CoveredRootIsDelivered(idx: Index, roots: seq<Message>, gs: seq<DeliveryGroup>, wire: seq<Message>, r: Message)
    requires Covers(idx, roots, gs) && WireOf(gs, {}, wire) && r in roots
    ensures r in wire
  {
    assert InGroups(gs, r);
  }

  lemma LocalWireIsClosed(idx: Index, corpus: seq<Message>, roots: seq<Message>, gs: seq<DeliveryGroup>,
                          wire: seq<Message>)
    requires IndexOf(idx, corpus) && Covers(idx, roots, gs) && WireOf(gs, {}, wire)
    ensures ProtocolClosed(wire)
  {
    forall g | g in gs ensures ProtocolClosed(g.messages) {
      CoveringGroupIsClosed(idx, corpus, roots, gs, g);
    }
    WholeGroupsStayClosed(gs, {}, wire);
  }

  lemma SelectedWireIsClosed(sc: Scene, dropped: set<string>, gs: seq<DeliveryGroup>, head: seq<Message>)
    requires Sound(sc) && AllClosable(sc, dropped) && multiset(gs) == multiset(Round(sc, dropped))
    requires WireOf(gs, sc.localIDs, head)
    ensures ProtocolClosed(head)
  {
    RoundIsDeliverable(sc, dropped, gs);
    SameGroups(gs, Round(sc, dropped));
    forall g | g in gs ensures ProtocolClosed(g.messages) {
      RoundGroupIsClosed(sc, dropped, g);
    }
    WholeGroupsStayClosed(gs, sc.localIDs, head);
  }

  lemma RoundGroupIsClosed(sc: Scene, dropped: set<string>, g: DeliveryGroup)
    requires Sound(sc) && AllClosable(sc, dropped) && g in Round(sc, dropped)
    ensures ProtocolClosed(g.messages)
  {
    var r := RoundClosure(sc, dropped, g);
    ClosureIsProtocolClosed(sc.idx, sc.corpus, r, g.messages);
  }

  lemma ConcatIdsDistinct(a: seq<Message>, b: seq<Message>)
    requires DistinctMessageIds(a) && DistinctMessageIds(b)
    requires forall x, y :: x in a && y in b ==> x.id != y.id
    ensures DistinctMessageIds(a + b)
  {
    forall i, j | 0 <= i < j < |a + b| ensures (a + b)[i].id != (a + b)[j].id {
      if i < |a| <= j { assert a[i] in a && b[j - |a|] in b; }
    }
  }

  /** What every successful assembly puts on the wire. */
  ghost predicate WirePromise(req: Request, r: Assembled)
    requires r.Assembled?
  {
    && ProtocolClosed(r.wire)
    && DistinctMessageIds(r.wire)
    // Selected history first, then local context, each thread by thread in order of position.
    && HistoryThenLocal(r)
    // The window's focus and its latest speakers are always delivered.
    && InWireOrder(r.localWire) && ResultsFollowCalls(r.localWire)
    && req.anchor in r.localWire
    && (forall m :: Latest(req.local, User, m) || Latest(req.local, Assistant, m) ==> m in r.localWire)
    && (req.budget > 0 ==> r.total <= Effective(req.budget, req.headroom))
  }

  lemma PinnedAreDelivered(req: Request, pinned: set<string>, kept: seq<Message>, wire: seq<Message>)
    requires OldestGaveWay(req.local, pinned, kept) && forall m :: m in kept ==> m in wire
    requires Focus(req.local, req.currentTurn, req.anchor) && req.anchor.id in pinned
    requires forall m: Message :: Latest(req.local, User, m) || Latest(req.local, Assistant, m) ==> m.id in pinned
    ensures req.anchor in wire
    ensures forall m :: Latest(req.local, User, m) || Latest(req.local, Assistant, m) ==> m in wire
  {
    var k :| 0 <= k <= |req.local| && kept == KeepFrom(req.local, pinned, k);
    forall m | m in req.local && m.id in pinned ensures m in wire {
      KeepFromHolds(req.local, pinned, k, m);
    }
    forall m | Latest(req.local, User, m) || Latest(req.local, Assistant, m) ensures m in req.local {
    }
  }

  lemma HeadAvoidsLocal(sc: Scene, localGroups: seq<DeliveryGroup>, localWire: seq<Message>, gs: seq<DeliveryGroup>,
                        head: seq<Message>)
    requires WireOf(gs, sc.localIDs, head) && sc.localIDs == IdsOf(localGroups) && WireOf(localGroups, {}, localWire)
    ensures DistinctMessageIds(head + localWire)
  {
    forall x, y | x in head && y in localWire ensures x.id != y.id {
      var g :| g in localGroups && y in g.messages;
      assert y.id in sc.localIDs;
    }
    ConcatIdsDistinct(head, localWire);
  }

  lemma HeadIsDelivered(sc: Scene, dropped: set<string>, gs: seq<DeliveryGroup>, head: seq<Message>, m: Message)
    requires Sound(sc) && AllClosable(sc, dropped) && multiset(gs) == multiset(Round(sc, dropped))
    requires WireOf(gs, sc.localIDs, head)
    ensures m in head <==> InGroups(gs, m)
  {
    RoundIsDeliverable(sc, dropped, gs);
    if InGroups(gs, m) {
      var g :| g in gs && m in g.messages;
    }
  }

  ghost predicate HistoryThenLocal(r: Assembled)
    requires r.Assembled?
  {
    exists head :: r.wire == head + r.localWire && InWireOrder(head) && ResultsFollowCalls(head) &&
                   forall m :: m in head <==> InGroups(r.delivered, m)
  }

  /** History was gathered and shed as `ShedToFit` promises, against the window's messages. */
  ghost predicate HistoryPromise(req: Request, selected: seq<Pick>, byID: map<string, Message>, selCorpus: seq<Message>,
                                 cost: Message -> nat, log2: real -> real, r: Assembled, sc: Scene,
                                 shed: seq<DeliveryGroup>)
    requires r.Assembled?
  {
    && SceneOf(selected, byID, selCorpus, r.localWire, sc)
    && !Refuses(sc, TermsOf(req, r.localWire, cost, log2), req.excluded)
    && FitPromise(sc, TermsOf(req, r.localWire, cost, log2), req.excluded,
                  Fit(r.wire, r.delivered, r.shed, r.price, r.total), shed)
  }

  /** The shed loop sees the fetched selection, its index, and what the window already delivers. */
  ghost predicate SceneOf(selected: seq<Pick>, byID: map<string, Message>, selCorpus: seq<Message>,
                          localWire: seq<Message>, sc: Scene) {
    && sc.selected == selected && sc.corpus == selCorpus && sc.byID == byID && IndexOf(sc.idx, selCorpus)
    && sc.localIDs == set m | m in localWire :: m.id
  }

  function TermsOf(req: Request, localWire: seq<Message>, cost: Message -> nat, log2: real -> real): Terms {
    Terms(req.budget, Effective(req.budget, req.headroom), req.fixed, localWire, cost, log2, req.lossRatio)
  }

  /** A selection cannot be delivered: some pick cannot be closed, or the certain groups alone
      overrun the budget. */
  ghost predicate Refuses(sc: Scene, t: Terms, excluded: set<string>) {
    !AllClosable(sc, excluded) || (t.budget > 0 && FirmTotal(sc, t, excluded) > t.effective)
  }

  /** Why the history was refused, with the pick or the token count behind it. */
  ghost predicate HistoryRefusal(req: Request, selected: seq<Pick>, byID: map<string, Message>,
                                 selCorpus: seq<Message>, cost: Message -> nat, log2: real -> real,
                                 localWire: seq<Message>, sc: Scene, outcome: Outcome) {
    var t := TermsOf(req, localWire, cost, log2);
    && SceneOf(selected, byID, selCorpus, localWire, sc) && Refuses(sc, t, req.excluded)
    && match outcome
       case Fit(_, _, _, _, _) => false
       case NotAssembled(why) => !AllClosable(sc, req.excluded) && Blocks(sc, req.excluded, why)
       case OverBudget(needed) => AllClosable(sc, req.excluded) && needed == FirmTotal(sc, t, req.excluded)
  }

  lemma WireIds(groups: seq<DeliveryGroup>, wire: seq<Message>)
    requires WireOf(groups, {}, wire)
    ensures IdsOf(groups) == set m | m in wire :: m.id
  {
    forall g, m | g in groups && m in g.messages ensures m in wire { assert InGroups(groups, m); }
  }

  /** Second half: selected history on top of the fitted window. */
  method AddHistory(req: Request, localGroups: seq<DeliveryGroup>, localWire: seq<Message>, effective: int,
                    selected: seq<Pick>, byID: map<string, Message>, selCorpus: seq<Message>, cost: Message -> nat,
                    log2: real -> real)
    returns (r: Assembled, ghost sc: Scene, ghost shed: seq<DeliveryGroup>)
    requires UniqueIds(selCorpus) && UniquePositions(selCorpus) && req.lossRatio < 1.0
    requires forall id :: id in byID ==> byID[id] in selCorpus && byID[id].id == id
    requires effective == Effective(req.budget, req.headroom)
    requires WireOf(localGroups, {}, localWire) && ProtocolClosed(localWire)
    requires req.budget > 0 ==> req.fixed + Tokens(cost, localWire) <= effective
    ensures r.Assembled? || r.SelectedFailed?
    ensures r.Assembled? ==>
              && ProtocolClosed(r.wire) && DistinctMessageIds(r.wire)
              && r.localWire == localWire && HistoryThenLocal(r)
              && (req.budget > 0 ==> r.total <= effective)
    ensures r.Assembled? ==> HistoryPromise(req, selected, byID, selCorpus, cost, log2, r, sc, shed)
    ensures r.SelectedFailed? ==>
              HistoryRefusal(req, selected, byID, selCorpus, cost, log2, localWire, sc, r.outcome)
    ensures (forall p :: p in selected ==> p.score < 1.0) && r.SelectedFailed? ==> r.outcome.NotAssembled?
  {
    var idx := NewIndex(selCorpus);
    var scene := Scene(selected, selCorpus, byID, idx, IdsOf(localGroups));
    var t := TermsOf(req, localWire, cost, log2);
    var outcome;
    sc := scene;
    WireIds(localGroups, localWire);
    outcome, shed := ShedToFit(scene, t, req.excluded);
    if !outcome.Fit? {
      if (forall p :: p in selected ==> p.score < 1.0) && req.budget > 0 {
        UncertainNeverOverruns(sc, t, req.excluded);
      }
      return SelectedFailed(outcome), sc, shed;
    }
    ghost var head :| WireOf(outcome.groups, sc.localIDs, head) && outcome.wire == head + localWire;
    ClosableShrinks(sc, req.excluded, RootsShed(shed));
    SelectedWireIsClosed(sc, outcome.dropped, outcome.groups, head);
    SortedIsInOrder(head);
    ConcatStaysClosed(head, localWire);
    HeadAvoidsLocal(sc, localGroups, localWire, outcome.groups, head);
    forall m
      ensures m in head <==> InGroups(outcome.groups, m)
    {
      HeadIsDelivered(sc, outcome.dropped, outcome.groups, head, m);
    }
    r := Assembled(outcome.wire, localWire, outcome.groups, outcome.dropped, outcome.price, outcome.total);
  }

  /** The delivered window: what remains of the request's, closed, and cut only as far as forced. */
  ghost predicate LocalPromise(req: Request, idx: Index, cost: Message -> nat, r: Assembled, fit: LocalFit)
    requires r.Assembled?
  {
    WindowPromise(req, idx, cost, fit) && fit.wire == r.localWire
  }

  ghost predicate WindowPromise(req: Request, idx: Index, cost: Message -> nat, fit: LocalFit) {
    && fit.Fitted?
    && Delivers(idx, fit.local, cost, req.fixed, fit.groups, fit.wire, fit.total)
    && exists pinned :: WindowCut(req, idx, cost, pinned, fit.local)
  }

  /** Pinned are the anchor and the latest speakers, and nothing else. */
  ghost predicate PinnedIn(req: Request, pinned: set<string>) {
    && req.anchor.id in pinned
    && (forall m: Message :: Latest(req.local, User, m) || Latest(req.local, Assistant, m) ==> m.id in pinned)
    && (forall id :: id in pinned ==>
          id == req.anchor.id || exists m: Message :: m.id == id &&
                                                      (Latest(req.local, User, m) || Latest(req.local, Assistant, m)))
  }

  /** Why a window cannot be delivered. */
  ghost predicate LocalRefusal(req: Request, idx: Index, cost: Message -> nat, fit: LocalFit) {
    match fit
    case Fitted(_, _, _, _) => false
    case PinnedTooLarge(needed) =>
      && req.budget > 0 && needed > Effective(req.budget, req.headroom)
      && exists pinned :: PinnedIn(req, pinned) && Demands(idx, PinnedOf(req.local, pinned), cost, req.fixed, needed)
    case LocalUnpaired(at, block) =>
      block in at.content && Broken(idx, at, block) && exists m :: m in req.local && Needs(idx, m, at)
  }

  /** Pinned messages stayed; other messages left oldest first. */
  ghost predicate WindowCut(req: Request, idx: Index, cost: Message -> nat, pinned: set<string>, kept: seq<Message>) {
    && PinnedIn(req, pinned)
    && OldestGaveWay(req.local, pinned, kept)
    && (kept == req.local ||
        (req.budget > 0 && Forced(idx, req.local, pinned, cost, req.fixed, Effective(req.budget, req.headroom), kept)))
  }

  /** What a fitted window puts on the wire: closed, in order, with the focus and latest speakers. */
  ghost predicate Ready(req: Request, wire: seq<Message>) {
    && ProtocolClosed(wire) && InWireOrder(wire) && ResultsFollowCalls(wire) && req.anchor in wire
    && (forall m :: Latest(req.local, User, m) || Latest(req.local, Assistant, m) ==> m in wire)
  }

  lemma WindowIsReady(req: Request, idx: Index, corpus: seq<Message>, pinned: set<string>, fit: LocalFit)
    requires fit.Fitted? && IndexOf(idx, corpus) && Covers(idx, fit.local, fit.groups) &&
             WireOf(fit.groups, {}, fit.wire)
    requires OldestGaveWay(req.local, pinned, fit.local) && req.anchor.id in pinned
    requires Focus(req.local, req.currentTurn, req.anchor)
    requires forall m: Message :: Latest(req.local, User, m) || Latest(req.local, Assistant, m) ==> m.id in pinned
    ensures Ready(req, fit.wire)
  {
    LocalWireIsClosed(idx, corpus, fit.local, fit.groups, fit.wire);
    SortedIsInOrder(fit.wire);
    forall m | m in fit.local ensures m in fit.wire {
      CoveredRootIsDelivered(idx, fit.local, fit.groups, fit.wire, m);
    }
    PinnedAreDelivered(req, pinned, fit.local, fit.wire);
  }

  /** Assembly with a given selection. `localCorpus` holds the window and its turn peers,
      `selCorpus` the fetched selected messages `byID` and theirs. */
  method Assemble(req: Request, localCorpus: seq<Message>, selected: seq<Pick>, byID: map<string, Message>,
                  selCorpus: seq<Message>,
                  cost: Message -> nat, log2: real -> real)
    returns (r: Assembled, ghost idx: Index, ghost fit: LocalFit, ghost sc: Scene, ghost shed: seq<DeliveryGroup>)
    requires UniqueIds(localCorpus) && req.anchor in localCorpus && (forall m :: m in req.local ==> m in localCorpus)
    requires DistinctMessageIds(req.local)
    requires UniqueIds(selCorpus) && UniquePositions(selCorpus) && req.lossRatio < 1.0
    requires forall id :: id in byID ==> byID[id] in selCorpus && byID[id].id == id
    ensures r.EmptyWindow? <==> req.local == []
    ensures r.AnchorNotFocus? <==> req.local != [] && !Focus(req.local, req.currentTurn, req.anchor)
    ensures r.Assembled? ==> WirePromise(req, r)
    // The window gave up no more than the budget forced, and history no more than the shed.
    ensures r.Assembled? ==> IndexOf(idx, localCorpus) && LocalPromise(req, idx, cost, r, fit)
    ensures r.Assembled? ==> HistoryPromise(req, selected, byID, selCorpus, cost, log2, r, sc, shed)
    // The window fails only on a broken block it needs, or when its pinned messages alone overrun.
    ensures r.LocalFailed? ==> IndexOf(idx, localCorpus) && r.fit == fit && LocalRefusal(req, idx, cost, fit)
    // History fails exactly on a pick that cannot be closed, or when certain groups alone overrun.
    ensures r.SelectedFailed? ==> IndexOf(idx, localCorpus) && WindowPromise(req, idx, cost, fit)
    ensures r.SelectedFailed? ==>
              HistoryRefusal(req, selected, byID, selCorpus, cost, log2, fit.wire, sc, r.outcome)
    // With every score below 1 the shed itself never fails on the budget.
    ensures (forall p :: p in selected ==> p.score < 1.0) && r.SelectedFailed? ==> r.outcome.NotAssembled?
  {
    idx, fit := Protocol.Index(map[], map[], {}, {}), PinnedTooLarge(0);
    sc, shed := Scene([], [], map[], idx, {}), [];
    if req.local == [] { return EmptyWindow, idx, fit, sc, shed; }
    var found, focus := LastSemantic(req.local, req.currentTurn);
    if !found || focus.id != req.anchor.id {
      return AnchorNotFocus, idx, fit, sc, shed;
    }
    assert focus == req.anchor;
    var effective := Effective(req.budget, req.headroom);
    var index := NewIndex(localCorpus);
    var pinned := PinnedLocalIDs(req.local, req.anchor.id);
    var window := FitLocal(index, localCorpus, req.local, pinned, cost, req.fixed, req.budget, effective);
    idx, fit := index, window;
    if !window.Fitted? {
      assert PinnedIn(req, pinned);
      return LocalFailed(window), idx, fit, sc, shed;
    }
    WindowIsReady(req, index, localCorpus, pinned, window);
    assert WindowCut(req, index, cost, pinned, window.local);
    r, sc, shed := AddHistory(req, window.groups, window.wire, effective, selected, byID, selCorpus, cost, log2);
  }
}
