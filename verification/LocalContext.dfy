/** Fitting Local Context: the pinned messages and the oldest-first local shed
    (rrc/assembly.go). */
module LocalContext {
  import opened Messages
  import opened Protocol
  import opened Closure
  import opened Components
  import opened Delivery
  import opened Wire

  // ----- Pinning -----

  /** `m` is the last semantic message of `role` in `local`. */
  ghost predicate Latest(local: seq<Message>, role: Role, m: Message) {
    exists i :: 0 <= i < |local| && local[i] == m && m.role == role && SaysSomething(m) &&
                forall j :: i < j < |local| ==> !(local[j].role == role && SaysSomething(local[j]))
  }

  ghost predicate Speaks(local: seq<Message>, role: Role, from: nat) {
    exists j :: from <= j < |local| && local[j].role == role && SaysSomething(local[j])
  }

  /** The anchor, and the latest semantic user and assistant messages. */
  method PinnedLocalIDs(local: seq<Message>, anchorID: string) returns (pinned: set<string>)
    ensures local != [] ==> anchorID in pinned
    ensures forall m: Message :: Latest(local, User, m) || Latest(local, Assistant, m) ==> m.id in pinned
    ensures forall id :: id in pinned ==>
              id == anchorID || exists m: Message :: m.id == id &&
                                                     (Latest(local, User, m) || Latest(local, Assistant, m))
  {
    pinned := {};
    if local == [] { return; }
    pinned := {anchorID};
    var haveUser, haveAssistant := false, false;
    var i := |local|;
    while i > 0 && (!haveUser || !haveAssistant)
      invariant 0 <= i <= |local| && anchorID in pinned
      invariant haveUser <==> Speaks(local, User, i)
      invariant haveAssistant <==> Speaks(local, Assistant, i)
      invariant forall k :: i <= k < |local| && IsLast(local, k) &&
                            (Latest(local, User, local[k]) || Latest(local, Assistant, local[k]))
                            ==> local[k].id in pinned
      invariant forall id :: id in pinned ==>
                  id == anchorID || exists m: Message :: m.id == id &&
                                                         (Latest(local, User, m) || Latest(local, Assistant, m))
    {
      i := i - 1;
      var m := local[i];
      assert HasSemanticBlock(m.content) <==> SaysSomething(m);
      if HasSemanticBlock(m.content) {
        if m.role == User && !haveUser {
          assert Latest(local, User, m);
          pinned, haveUser := pinned + {m.id}, true;
        }
        if m.role == Assistant && !haveAssistant {
          assert Latest(local, Assistant, m);
          pinned, haveAssistant := pinned + {m.id}, true;
        }
      }
    }
    forall m | Latest(local, User, m) || Latest(local, Assistant, m) ensures m.id in pinned {
      var role := if Latest(local, User, m) then User else Assistant;
      var k :| 0 <= k < |local| && local[k] == m && m.role == role && SaysSomething(m) &&
               forall j :: k < j < |local| ==> !(local[j].role == role && SaysSomething(local[j]));
      assert IsLast(local, k);
      assert k >= i by { assert i > 0 ==> Speaks(local, role, i); }
    }
  }

  /** `local[k]` is the last semantic message of its own role. */
  ghost predicate IsLast(local: seq<Message>, k: nat) {
    k < |local| && SaysSomething(local[k]) &&
    forall j :: k < j < |local| ==> !(local[j].role == local[k].role && SaysSomething(local[j]))
  }

  // ----- Oldest-first removal -----

  method OldestUnpinned(local: seq<Message>, pinned: set<string>) returns (at: nat)
    ensures at <= |local|
    ensures forall i :: 0 <= i < at ==> local[i].id in pinned
    ensures at < |local| ==> local[at].id !in pinned
  {
    at := 0;
    while at < |local|
      invariant at <= |local| && forall i :: 0 <= i < at ==> local[i].id in pinned
    {
      if local[at].id !in pinned { return; }
      at := at + 1;
    }
  }

  ghost function Others(ms: seq<Message>, id: string): seq<Message> {
    if ms == [] then []
    else if ms[|ms| - 1].id == id then Others(ms[..|ms| - 1], id)
    else Others(ms[..|ms| - 1], id) + [ms[|ms| - 1]]
  }

  method RemoveMessage(ms: seq<Message>, id: string) returns (out: seq<Message>)
    ensures out == Others(ms, id)
  {
    out := [];
    for i := 0 to |ms|
      invariant out == Others(ms[..i], id)
    {
      assert ms[..i + 1][..i] == ms[..i];
      if ms[i].id != id { out := out + [ms[i]]; }
    }
    assert ms[..|ms|] == ms;
  }

  lemma {:induction false} OthersOfAbsent(ms: seq<Message>, id: string)
    requires forall i :: 0 <= i < |ms| ==> ms[i].id != id
    ensures Others(ms, id) == ms
  {
    if ms != [] {
      OthersOfAbsent(ms[..|ms| - 1], id);
    }
  }

  lemma {:induction false} OthersIsSlice(ms: seq<Message>, at: nat)
    requires DistinctMessageIds(ms) && at < |ms|
    ensures Others(ms, ms[at].id) == ms[..at] + ms[at + 1..]
    ensures DistinctMessageIds(ms[..at] + ms[at + 1..])
  {
    var front := ms[..|ms| - 1];
    if at == |ms| - 1 {
      OthersOfAbsent(front, ms[at].id);
    } else {
      OthersIsSlice(front, at);
      assert ms[..at] + ms[at + 1..] == (front[..at] + front[at + 1..]) + [ms[|ms| - 1]];
    }
  }

  function PinnedOf(ms: seq<Message>, pinned: set<string>): seq<Message> {
    if ms == [] then []
    else PinnedOf(ms[..|ms| - 1], pinned) + (if ms[|ms| - 1].id in pinned then [ms[|ms| - 1]] else [])
  }

  /** `local` after its `k` oldest messages gave way, pinned ones excepted. */
  function KeepFrom(local: seq<Message>, pinned: set<string>, k: nat): seq<Message>
    requires k <= |local|
  {
    PinnedOf(local[..k], pinned) + local[k..]
  }

  lemma {:induction false} PinnedOfHolds(ms: seq<Message>, pinned: set<string>, m: Message)
    ensures m in PinnedOf(ms, pinned) <==> m in ms && m.id in pinned
  {
    if ms != [] {
      PinnedOfHolds(ms[..|ms| - 1], pinned, m);
      assert ms == ms[..|ms| - 1] + [ms[|ms| - 1]];
    }
  }

  lemma {:induction false} PinnedOfAppends(a: seq<Message>, b: seq<Message>, pinned: set<string>)
    requires forall i :: 0 <= i < |b| ==> b[i].id in pinned
    ensures PinnedOf(a + b, pinned) == PinnedOf(a, pinned) + b
  {
    if b == [] {
      assert a + b == a;
    } else {
      PinnedOfAppends(a, b[..|b| - 1], pinned);
      assert (a + b)[..|a + b| - 1] == a + b[..|b| - 1];
      assert b == b[..|b| - 1] + [b[|b| - 1]];
    }
  }

  /** What stays: pinned messages, and everything from some point on. */
  lemma KeepFromHolds(local: seq<Message>, pinned: set<string>, k: nat, m: Message)
    requires k <= |local|
    ensures m in KeepFrom(local, pinned, k) <==> (m in local[..k] && m.id in pinned) || m in local[k..]
    ensures m in KeepFrom(local, pinned, k) ==> m in local
    ensures m in local && m.id in pinned ==> m in KeepFrom(local, pinned, k)
  {
    PinnedOfHolds(local[..k], pinned, m);
    assert local == local[..k] + local[k..];
  }

  /** Removing the oldest unpinned message advances the cut. */
  lemma RemovalAdvances(local: seq<Message>, pinned: set<string>, k: nat, at: nat) returns (k': nat)
    requires k <= |local| && at < |KeepFrom(local, pinned, k)|
    requires KeepFrom(local, pinned, k)[at].id !in pinned
    requires forall i :: 0 <= i < at ==> KeepFrom(local, pinned, k)[i].id in pinned
    ensures k < k' <= |local|
    ensures KeepFrom(local, pinned, k') == KeepFrom(local, pinned, k)[..at] + KeepFrom(local, pinned, k)[at + 1..]
  {
    var front, now := PinnedOf(local[..k], pinned), KeepFrom(local, pinned, k);
    assert at >= |front| by {
      forall i | 0 <= i < |front| ensures front[i].id in pinned { PinnedOfHolds(local[..k], pinned, front[i]); }
    }
    var j := k + (at - |front|);
    assert now[at] == local[j];
    k' := j + 1;
    forall i | k <= i < j ensures local[i].id in pinned { assert local[i] == now[|front| + (i - k)]; }
    PinnedRun(local, pinned, k, j);
    assert now[..at] == front + local[k..j];
    assert now[at + 1..] == local[k'..];
  }

  lemma PinnedRun(local: seq<Message>, pinned: set<string>, k: nat, j: nat)
    requires k <= j < |local| && local[j].id !in pinned
    requires forall i :: k <= i < j ==> local[i].id in pinned
    ensures PinnedOf(local[..j + 1], pinned) == PinnedOf(local[..k], pinned) + local[k..j]
  {
    assert local[..j] == local[..k] + local[k..j];
    PinnedOfAppends(local[..k], local[k..j], pinned);
    assert local[..j + 1][..j] == local[..j];
  }

  // ----- Closing the roots -----

  datatype CloseResult = AllClosed(groups: seq<DeliveryGroup>) | RootUnpaired(at: Message, block: Block)

  /** Groups covering the roots: each is the closure of one of them, and none is left out. */
  ghost predicate Covers(idx: Index, roots: seq<Message>, gs: seq<DeliveryGroup>) {
    && (forall g {:trigger ClosesOne(idx, roots, g)} :: g in gs ==> ClosesOne(idx, roots, g))
    && (forall r {:trigger InGroups(gs, r)} :: r in roots ==> InGroups(gs, r))
  }

  ghost predicate ClosesOne(idx: Index, roots: seq<Message>, g: DeliveryGroup) {
    exists r :: r in roots && ClosureOf(idx, r, g.messages)
  }

  /** The ungrouped closures of the first roots. */
  ghost predicate Singles(idx: Index, roots: seq<Message>, gs: seq<DeliveryGroup>) {
    |gs| == |roots| && forall i {:trigger ClosureOf(idx, roots[i], gs[i].messages)} :: 0 <= i < |roots| ==>
            ClosureOf(idx, roots[i], gs[i].messages)
  }

  lemma MergeCovers(idx: Index, roots: seq<Message>, gs: seq<DeliveryGroup>)
    requires Singles(idx, roots, gs)
    ensures Covers(idx, roots, Sealed(Merge(gs)))
  {
    var out := Sealed(Merge(gs));
    MergeIsExact(gs);
    forall g | g in out ensures ClosesOne(idx, roots, g) {
      var i :| 0 <= i < |out| && out[i] == g;
      assert HasClosure(Merge(gs), g.messages);
      var j :| 0 <= j < |gs| && gs[j].messages == g.messages;
      SingleCloses(idx, roots, gs, j, g);
    }
    forall r | r in roots ensures InGroups(out, r) {
      var j :| 0 <= j < |roots| && roots[j] == r;
      assert HasClosure(gs, gs[j].messages);
      var i :| 0 <= i < |Merge(gs)| && Merge(gs)[i].messages == gs[j].messages;
      SingleHoldsRoot(idx, roots, gs, j);
      assert out[i] in out && out[i].messages == gs[j].messages;
    }
  }

  lemma SingleCloses(idx: Index, roots: seq<Message>, gs: seq<DeliveryGroup>, j: nat, g: DeliveryGroup)
    requires Singles(idx, roots, gs) && j < |roots| && gs[j].messages == g.messages
    ensures ClosesOne(idx, roots, g)
  {
    assert ClosureOf(idx, roots[j], gs[j].messages) && roots[j] in roots;
  }

  lemma SingleHoldsRoot(idx: Index, roots: seq<Message>, gs: seq<DeliveryGroup>, j: nat)
    requires Singles(idx, roots, gs) && j < |roots|
    ensures roots[j] in gs[j].messages
  {
    assert ClosureOf(idx, roots[j], gs[j].messages);
    NeedsItself(idx, roots[j]);
  }

  lemma SinglesShareIds(idx: Index, corpus: seq<Message>, roots: seq<Message>, gs: seq<DeliveryGroup>)
    requires IndexOf(idx, corpus) && UniqueIds(corpus) && forall r :: r in roots ==> r in corpus
    requires Singles(idx, roots, gs)
    ensures OneMessagePerId(gs)
  {
    forall g, m | g in gs && m in g.messages ensures m in corpus {
      var i :| 0 <= i < |gs| && gs[i] == g;
      assert roots[i] in roots;
      ClosureIsIndexed(idx, corpus, roots[i], g.messages, m);
    }
  }

  lemma SealedSharesIds(gs: seq<DeliveryGroup>)
    requires OneMessagePerId(gs)
    ensures OneMessagePerId(Sealed(Merge(gs)))
  {
    var out := Sealed(Merge(gs));
    forall g | g in out ensures exists h :: h in gs && h.messages == g.messages {
      var i :| 0 <= i < |out| && out[i] == g;
      var h := MergedIsInput(gs, Merge(gs)[i]);
    }
  }

  lemma SinglesSnoc(idx: Index, roots: seq<Message>, i: nat, gs: seq<DeliveryGroup>, g: DeliveryGroup)
    requires i < |roots| && Singles(idx, roots[..i], gs) && ClosureOf(idx, roots[i], g.messages)
    ensures Singles(idx, roots[..i + 1], gs + [g])
  {
    assert roots[..i + 1] == roots[..i] + [roots[i]];
  }

  method CloseRoots(idx: Index, ghost corpus: seq<Message>, roots: seq<Message>) returns (r: CloseResult)
    requires IndexOf(idx, corpus) && UniqueIds(corpus) && forall m :: m in roots ==> m in corpus
    ensures r.AllClosed? ==> Covers(idx, roots, r.groups) && OneMessagePerId(r.groups)
    ensures r.RootUnpaired? ==>
              r.block in r.at.content && Broken(idx, r.at, r.block) &&
              exists m :: m in roots && Needs(idx, m, r.at)
  {
    var groups := [];
    for i := 0 to |roots|
      invariant Singles(idx, roots[..i], groups)
    {
      NeededIsUnique(idx, corpus, roots[i]);
      var c := CloseGroup(idx, roots[i], 1.0);
      if c.Failed? {
        return RootUnpaired(c.at, c.block);
      }
      SinglesSnoc(idx, roots, i, groups, c.group);
      groups := groups + [c.group];
    }
    assert roots[..|roots|] == roots;
    groups := MergeSingles(idx, corpus, roots, groups);
    r := AllClosed(groups);
  }

  method MergeSingles(ghost idx: Index, ghost corpus: seq<Message>, ghost roots: seq<Message>, gs: seq<DeliveryGroup>)
    returns (out: seq<DeliveryGroup>)
    requires IndexOf(idx, corpus) && UniqueIds(corpus) && forall m :: m in roots ==> m in corpus
    requires Singles(idx, roots, gs)
    ensures Covers(idx, roots, out) && OneMessagePerId(out)
  {
    SinglesShareIds(idx, corpus, roots, gs);
    SealedSharesIds(gs);
    MergeCovers(idx, roots, gs);
    out := MergeDeliveryGroups(gs);
  }

  // ----- The local shed -----

  datatype LocalFit =
    | Fitted(local: seq<Message>, groups: seq<DeliveryGroup>, wire: seq<Message>, total: int)
    | PinnedTooLarge(needed: int)
    | LocalUnpaired(at: Message, block: Block)

  /** Delivering `roots` with their closures as `gs` and `wire` takes `total` tokens. */
  ghost predicate Delivers(idx: Index, roots: seq<Message>, cost: Message -> nat, fixed: int,
                           gs: seq<DeliveryGroup>, wire: seq<Message>, total: int)
  {
    Covers(idx, roots, gs) && WireOf(gs, {}, wire) && total == fixed + Tokens(cost, wire)
  }

  ghost predicate Demands(idx: Index, roots: seq<Message>, cost: Message -> nat, fixed: int, total: int) {
    exists gs, wire :: Delivers(idx, roots, cost, fixed, gs, wire, total)
  }

  /** `kept` is `local` less some of its oldest unpinned messages. */
  ghost predicate OldestGaveWay(local: seq<Message>, pinned: set<string>, kept: seq<Message>) {
    exists k :: 0 <= k <= |local| && kept == KeepFrom(local, pinned, k)
  }

  /** `kept` is what remained when the oldest unpinned message left a window that took `total`
      tokens, more than allowed. */
  ghost predicate ForcedBy(idx: Index, local: seq<Message>, pinned: set<string>, cost: Message -> nat, fixed: int,
                           effective: int,
                           kept: seq<Message>, k: nat, at: nat, total: int)
  {
    && k <= |local| && at < |KeepFrom(local, pinned, k)|
    && KeepFrom(local, pinned, k)[at].id !in pinned
    && (forall i :: 0 <= i < at ==> KeepFrom(local, pinned, k)[i].id in pinned)
    && kept == KeepFrom(local, pinned, k)[..at] + KeepFrom(local, pinned, k)[at + 1..]
    && total > effective && Demands(idx, KeepFrom(local, pinned, k), cost, fixed, total)
  }

  ghost predicate Forced(idx: Index, local: seq<Message>, pinned: set<string>, cost: Message -> nat, fixed: int,
                         effective: int, kept: seq<Message>) {
    exists k, at, total :: ForcedBy(idx, local, pinned, cost, fixed, effective, kept, k, at, total)
  }

  method TryLocal(idx: Index, ghost corpus: seq<Message>, roots: seq<Message>, cost: Message -> nat, fixed: int)
    returns (c: CloseResult, wire: seq<Message>, total: int)
    requires IndexOf(idx, corpus) && UniqueIds(corpus) && forall m :: m in roots ==> m in corpus
    ensures c.AllClosed? ==> Delivers(idx, roots, cost, fixed, c.groups, wire, total)
    ensures c.RootUnpaired? ==>
              c.block in c.at.content && Broken(idx, c.at, c.block) &&
              exists m :: m in roots && Needs(idx, m, c.at)
  {
    wire, total := [], 0;
    c := CloseRoots(idx, corpus, roots);
    if c.AllClosed? {
      wire := GroupsToWire(c.groups, {});
      total := WireTokens(cost, wire, fixed);
    }
  }

  method FitLocal(idx: Index, ghost corpus: seq<Message>, local: seq<Message>, pinned: set<string>,
                  cost: Message -> nat, fixed: int, budget: int, effective: int)
    returns (r: LocalFit)
    requires IndexOf(idx, corpus) && UniqueIds(corpus) && forall m :: m in local ==> m in corpus
    requires DistinctMessageIds(local)
    ensures r.Fitted? ==>
              && OldestGaveWay(local, pinned, r.local)
              && Delivers(idx, r.local, cost, fixed, r.groups, r.wire, r.total)
              && (budget > 0 ==> r.total <= effective)
              // A message gave way only because the window it left did not fit.
              && (r.local == local || (budget > 0 && Forced(idx, local, pinned, cost, fixed, effective, r.local)))
    // Failing on the budget means nothing but pinned messages was left.
    ensures r.PinnedTooLarge? ==>
              budget > 0 && r.needed > effective && Demands(idx, PinnedOf(local, pinned), cost, fixed, r.needed)
    ensures r.LocalUnpaired? ==>
              r.block in r.at.content && Broken(idx, r.at, r.block) &&
              exists m :: m in local && Needs(idx, m, r.at)
  {
    var now := local;
    ghost var k := 0;
    ghost var forced := false;
    assert KeepFrom(local, pinned, 0) == local;
    while true
      invariant k <= |local| && now == KeepFrom(local, pinned, k)
      invariant DistinctMessageIds(now)
      invariant if forced then budget > 0 && Forced(idx, local, pinned, cost, fixed, effective, now) else now == local
      decreases |local| - k
    {
      forall m | m in now ensures m in local { KeepFromHolds(local, pinned, k, m); }
      var c, wire, total := TryLocal(idx, corpus, now, cost, fixed);
      if c.RootUnpaired? {
        return LocalUnpaired(c.at, c.block);
      }
      if budget <= 0 || total <= effective {
        return Fitted(now, c.groups, wire, total);
      }
      var at := OldestUnpinned(now, pinned);
      if at == |now| {
        OnlyPinnedLeft(local, pinned, k);
        return PinnedTooLarge(total);
      }
      assert Delivers(idx, now, cost, fixed, c.groups, wire, total);
      assert ForcedBy(idx, local, pinned, cost, fixed, effective, now[..at] + now[at + 1..], k, at, total);
      k := RemovalAdvances(local, pinned, k, at);
      OthersIsSlice(now, at);
      now := RemoveMessage(now, now[at].id);
      forced := true;
    }
  }

  lemma OnlyPinnedLeft(local: seq<Message>, pinned: set<string>, k: nat)
    requires k <= |local| && forall i :: 0 <= i < |KeepFrom(local, pinned, k)| ==>
                 KeepFrom(local, pinned, k)[i].id in pinned
    ensures KeepFrom(local, pinned, k) == PinnedOf(local, pinned)
  {
    var front, now := PinnedOf(local[..k], pinned), KeepFrom(local, pinned, k);
    forall i | 0 <= i < |local| - k ensures local[k..][i].id in pinned { assert local[k..][i] == now[|front| + i]; }
    PinnedOfAppends(local[..k], local[k..], pinned);
    assert local == local[..k] + local[k..];
  }
}
