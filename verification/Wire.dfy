/** Flattening delivery groups onto the wire and counting its tokens (rrc/assembly.go). */
module Wire {
  import opened Messages
  import opened Closure
  import opened Delivery
  import opened Sorting
  import Ids

  /** Wire order: thread, position, id. */
  predicate WireOrder(a: Message, b: Message) {
    if a.thread != b.thread then Ids.Less(a.thread, b.thread)
    else if a.position != b.position then a.position < b.position
    else Ids.AtMost(a.id, b.id)
  }

  lemma WireOrderOrders()
    ensures TotalPreorder(WireOrder)
  {
    forall a: Message, b: Message ensures WireOrder(a, b) || WireOrder(b, a) {
      Ids.LessTotal(a.thread, b.thread);
      Ids.LessTotal(a.id, b.id);
    }
    forall a: Message, b: Message, c: Message | WireOrder(a, b) && WireOrder(b, c) ensures WireOrder(a, c) {
      if a.thread != b.thread && b.thread != c.thread {
        Ids.LessTransitive(a.thread, b.thread, c.thread);
        Ids.LessIrreflexive(a.thread);
      }
      if Ids.Less(a.id, b.id) && Ids.Less(b.id, c.id) { Ids.LessTransitive(a.id, b.id, c.id); }
    }
  }

  /** Delivered order: thread by thread, by position, ids ascending where positions are equal. */
  ghost predicate InWireOrder(wire: seq<Message>) {
    && ThreadByThread(wire)
    && (forall i, j :: 0 <= i < j < |wire| && wire[i].thread == wire[j].thread &&
                       wire[i].position == wire[j].position ==>
                         !Ids.Less(wire[j].id, wire[i].id))
  }

  /** Where positions say so, a result stands behind its call. */
  ghost predicate ResultsFollowCalls(wire: seq<Message>) {
    forall i, j {:trigger LaterReply(wire[i], wire[j])} :: 0 <= i < |wire| && 0 <= j < |wire| ==>
      LaterReply(wire[i], wire[j]) ==> i < j
  }

  /** `b` answers a call of `a` from a later position of the same thread. */
  ghost predicate LaterReply(a: Message, b: Message) {
    && a.thread == b.thread && a.position < b.position
    && exists call, answer :: call in a.content && answer in b.content && call.ToolCall? && answer.ToolResult? &&
                              call.id == answer.callID
  }

  lemma SortedIsInOrder(wire: seq<Message>)
    requires SortedBy(WireOrder, wire)
    ensures InWireOrder(wire) && ResultsFollowCalls(wire)
  {
    forall i, j | 0 <= i <= j < |wire| ensures NotLater(wire[i], wire[j]) {
      assert i < j ==> WireOrder(wire[i], wire[j]);
    }
    NotLaterIsByThread(wire);
    forall i, j | 0 <= i < j < |wire| && wire[i].thread == wire[j].thread && wire[i].position == wire[j].position
      ensures !Ids.Less(wire[j].id, wire[i].id)
    {
      assert WireOrder(wire[i], wire[j]);
      Ids.LessIrreflexive(wire[i].id);
      if Ids.Less(wire[i].id, wire[j].id) { Ids.LessAsymmetric(wire[i].id, wire[j].id); }
    }
  }

  ghost predicate DistinctMessageIds(ms: seq<Message>) {
    forall i, j :: 0 <= i < j < |ms| ==> ms[i].id != ms[j].id
  }

  ghost predicate InGroups(gs: seq<DeliveryGroup>, m: Message) {
    exists g :: g in gs && m in g.messages
  }

  /** The wire of `gs`: each message not already delivered exactly once, in wire order. */
  ghost predicate WireOf(gs: seq<DeliveryGroup>, already: set<string>, wire: seq<Message>) {
    && (forall m :: m in wire <==> InGroups(gs, m) && m.id !in already)
    && Distinct(wire) && DistinctMessageIds(wire)
    && SortedBy(WireOrder, wire)
  }

  /** All messages of the groups, group by group. */
  ghost function Flatten(gs: seq<DeliveryGroup>): seq<Message> {
    if gs == [] then [] else Flatten(gs[..|gs| - 1]) + gs[|gs| - 1].messages
  }

  lemma {:induction false} FlattenHolds(gs: seq<DeliveryGroup>, m: Message)
    ensures m in Flatten(gs) <==> InGroups(gs, m)
  {
    if gs != [] {
      var front, g := gs[..|gs| - 1], gs[|gs| - 1];
      assert gs == front + [g];
      FlattenHolds(front, m);
      if InGroups(front, m) {
        var h :| h in front && m in h.messages;
        assert h in gs;
      }
      if m in g.messages { assert g in gs; }
    }
  }

  ghost predicate Keeps(kept: seq<Message>, id: string) {
    exists k :: k in kept && k.id == id
  }

  /** `m` comes before every other message of its id. */
  ghost predicate FirstOf(ms: seq<Message>, m: Message) {
    exists i: nat {:trigger ms[i]} :: i < |ms| && ms[i] == m && forall j :: 0 <= j < i ==> ms[j].id != m.id
  }

  lemma FirstStays(ms: seq<Message>, m: Message, more: seq<Message>)
    requires FirstOf(ms, m)
    ensures FirstOf(ms + more, m)
  {
    var i: nat :| i < |ms| && ms[i] == m && forall j :: 0 <= j < i ==> ms[j].id != m.id;
    assert (ms + more)[i] == m;
  }

  lemma FirstIsOne(ms: seq<Message>, a: Message, b: Message)
    requires FirstOf(ms, a) && FirstOf(ms, b) && a.id == b.id
    ensures a == b
  {
    var i: nat :| i < |ms| && ms[i] == a && forall j :: 0 <= j < i ==> ms[j].id != a.id;
    var k: nat :| k < |ms| && ms[k] == b && forall j :: 0 <= j < k ==> ms[j].id != b.id;
    assert i == k;
  }

  lemma {:induction false} FirstExists(ms: seq<Message>, m: Message) returns (k: Message)
    requires m in ms
    ensures FirstOf(ms, k) && k.id == m.id
  {
    var front, last := ms[..|ms| - 1], ms[|ms| - 1];
    assert ms == front + [last];
    if x :| x in front && x.id == m.id {
      k := FirstExists(front, x);
      FirstStays(front, k, [last]);
    } else {
      k := m;
      assert ms[|front|] == m;
    }
  }

  /** One pass over a list of messages, keeping the first message of each unseen id. */
  ghost predicate Collected(seen0: set<string>, done: seq<Message>, seen: set<string>, kept: seq<Message>) {
    && DistinctMessageIds(kept)
    && (forall m :: m in done ==> m.id in seen)
    && (forall id :: id in seen ==> id in seen0 || Keeps(kept, id))
    && (forall m :: m in kept ==> FirstOf(done, m) && m.id !in seen0 && m.id in seen)
    && seen0 <= seen
  }

  lemma CollectOne(seen0: set<string>, done: seq<Message>, seen: set<string>, kept: seq<Message>, m: Message)
    requires Collected(seen0, done, seen, kept)
    ensures m.id in seen ==> Collected(seen0, done + [m], seen, kept)
    ensures m.id !in seen ==> Collected(seen0, done + [m], seen + {m.id}, kept + [m])
  {
    forall k | k in kept ensures FirstOf(done + [m], k) { FirstStays(done, k, [m]); }
    if m.id !in seen {
      assert (done + [m])[|done|] == m && FirstOf(done + [m], m);
      forall i | 0 <= i < |kept| ensures kept[i].id != m.id { assert kept[i] in kept; }
      forall id | id in seen + {m.id} && id !in seen0 ensures Keeps(kept + [m], id) {
        if id == m.id {
          assert m in kept + [m];
        } else {
          var k :| k in kept && k.id == id;
          assert k in kept + [m];
        }
      }
    }
  }

  method CollectGroup(seen0: set<string>, ghost done: seq<Message>, seen1: set<string>, kept1: seq<Message>,
                      ms: seq<Message>)
    returns (seen: set<string>, kept: seq<Message>)
    requires Collected(seen0, done, seen1, kept1)
    ensures Collected(seen0, done + ms, seen, kept)
  {
    seen, kept := seen1, kept1;
    assert done + ms[..0] == done;
    for i := 0 to |ms|
      invariant Collected(seen0, done + ms[..i], seen, kept)
    {
      CollectOne(seen0, done + ms[..i], seen, kept, ms[i]);
      assert done + ms[..i + 1] == (done + ms[..i]) + [ms[i]];
      if ms[i].id !in seen {
        seen, kept := seen + {ms[i].id}, kept + [ms[i]];
      }
    }
    assert ms[..|ms|] == ms;
  }

  /** What the wire of any groups is: the first message of each id not already delivered, in wire
      order. */
  ghost predicate FirstWire(gs: seq<DeliveryGroup>, already: set<string>, wire: seq<Message>) {
    && (forall m :: m in wire <==> FirstOf(Flatten(gs), m) && m.id !in already)
    && Distinct(wire) && DistinctMessageIds(wire)
    && SortedBy(WireOrder, wire)
  }

  /** No two undelivered messages of the groups share an id. */
  ghost predicate OneUndeliveredPerId(gs: seq<DeliveryGroup>, already: set<string>) {
    forall a, b {:trigger InGroups(gs, a), InGroups(gs, b)} ::
      InGroups(gs, a) && InGroups(gs, b) && a.id == b.id && a.id !in already ==> a == b
  }

  method GroupsToWire(gs: seq<DeliveryGroup>, already: set<string>) returns (wire: seq<Message>)
    ensures FirstWire(gs, already, wire)
    // Nothing is lost exactly when ids tell the undelivered messages apart.
    ensures WireOf(gs, already, wire) <==> OneUndeliveredPerId(gs, already)
    ensures OneMessagePerId(gs) ==> OneUndeliveredPerId(gs, already)
    ensures InWireOrder(wire) && ResultsFollowCalls(wire)
  {
    var seen, kept := already, [];
    for i := 0 to |gs|
      invariant Collected(already, Flatten(gs[..i]), seen, kept)
    {
      seen, kept := CollectGroup(already, Flatten(gs[..i]), seen, kept, gs[i].messages);
      assert gs[..i + 1][..i] == gs[..i];
    }
    assert gs[..|gs|] == gs;
    wire := Sort(WireOrder, kept);
    CollectedIsWire(gs, already, seen, kept);
    WireExactly(gs, already, wire);
    SortedIsInOrder(wire);
    if OneMessagePerId(gs) { NamedApart(gs, already); }
  }

  lemma CollectedIsWire(gs: seq<DeliveryGroup>, already: set<string>, seen: set<string>, kept: seq<Message>)
    requires Collected(already, Flatten(gs), seen, kept)
    ensures FirstWire(gs, already, Sort(WireOrder, kept))
  {
    var wire := Sort(WireOrder, kept);
    forall m ensures m in kept <==> FirstOf(Flatten(gs), m) && m.id !in already {
      CollectedMember(Flatten(gs), already, seen, kept, m);
    }
    SortMembers(WireOrder, kept);
    assert Distinct(kept);
    SortKeepsDistinct(WireOrder, kept);
    WireOrderOrders();
    SortSorts(WireOrder, kept);
    forall i, j | 0 <= i < j < |wire| ensures wire[i].id != wire[j].id {
      if wire[i].id == wire[j].id {
        assert wire[i] in wire && wire[j] in wire;
        FirstIsOne(Flatten(gs), wire[i], wire[j]);
      }
    }
  }

  lemma CollectedMember(all: seq<Message>, already: set<string>, seen: set<string>, kept: seq<Message>, m: Message)
    requires Collected(already, all, seen, kept)
    ensures m in kept <==> FirstOf(all, m) && m.id !in already
  {
    if FirstOf(all, m) && m.id !in already {
      assert m in all && Keeps(kept, m.id);
      var k :| k in kept && k.id == m.id;
      FirstIsOne(all, k, m);
    }
  }

  lemma WireExactly(gs: seq<DeliveryGroup>, already: set<string>, wire: seq<Message>)
    requires FirstWire(gs, already, wire)
    ensures WireOf(gs, already, wire) <==> OneUndeliveredPerId(gs, already)
  {
    if OneUndeliveredPerId(gs, already) {
      forall m ensures m in wire <==> InGroups(gs, m) && m.id !in already {
        FlattenHolds(gs, m);
        if InGroups(gs, m) && m.id !in already {
          var k := FirstExists(Flatten(gs), m);
          FlattenHolds(gs, k);
        }
      }
    }
    if WireOf(gs, already, wire) {
      forall a, b | InGroups(gs, a) && InGroups(gs, b) && a.id == b.id && a.id !in already ensures a == b {
        assert a in wire && b in wire;
      }
    }
  }

  lemma NamedApart(gs: seq<DeliveryGroup>, already: set<string>)
    requires OneMessagePerId(gs)
    ensures OneUndeliveredPerId(gs, already)
  {
    forall a, b | InGroups(gs, a) && InGroups(gs, b) && a.id == b.id ensures a == b { SameIdSameMessage(gs, a, b); }
  }

  lemma SameIdSameMessage(gs: seq<DeliveryGroup>, a: Message, b: Message)
    requires OneMessagePerId(gs) && InGroups(gs, a) && InGroups(gs, b) && a.id == b.id
    ensures a == b
  {
    var g :| g in gs && a in g.messages;
    var h :| h in gs && b in h.messages;
  }

  // ----- Token counts -----

  /** Tokens of a wire; `cost` is the estimate of one message plus the delimiter. */
  function Tokens(cost: Message -> nat, ms: seq<Message>): nat {
    if ms == [] then 0 else Tokens(cost, ms[..|ms| - 1]) + cost(ms[|ms| - 1])
  }

  method WireTokens(cost: Message -> nat, ms: seq<Message>, fixed: int) returns (total: int)
    ensures total == fixed + Tokens(cost, ms)
  {
    total := fixed;
    for i := 0 to |ms|
      invariant total == fixed + Tokens(cost, ms[..i])
    {
      assert ms[..i + 1][..i] == ms[..i];
      total := total + cost(ms[i]);
    }
    assert ms[..|ms|] == ms;
  }

  lemma {:induction false} TokensAppend(cost: Message -> nat, a: seq<Message>, b: seq<Message>)
    ensures Tokens(cost, a + b) == Tokens(cost, a) + Tokens(cost, b)
  {
    if b == [] {
      assert a + b == a;
    } else {
      TokensAppend(cost, a, b[..|b| - 1]);
      assert (a + b)[..|a + b| - 1] == a + b[..|b| - 1];
    }
  }

  lemma {:induction false} TokensPermute(cost: Message -> nat, a: seq<Message>, b: seq<Message>)
    requires multiset(a) == multiset(b)
    ensures Tokens(cost, a) == Tokens(cost, b)
    decreases |a|
  {
    if a == [] {
      assert |multiset(b)| == |b|;
    } else {
      var i := RemoveOne(a, b);
      TokensPermute(cost, a[..|a| - 1], b[..i] + b[i + 1..]);
      TokensAppend(cost, b[..i], b[i + 1..]);
      TokensAppend(cost, b[..i] + [b[i]], b[i + 1..]);
      TokensAppend(cost, b[..i], [b[i]]);
      assert [b[i]][..0] == [];
    }
  }

  lemma TokensOfSameMessages(cost: Message -> nat, a: seq<Message>, b: seq<Message>)
    requires Distinct(a) && Distinct(b) && forall m :: m in a <==> m in b
    ensures Tokens(cost, a) == Tokens(cost, b)
  {
    DistinctIsOnce(a);
    DistinctIsOnce(b);
    forall m ensures multiset(a)[m] == multiset(b)[m] {
      assert m in a <==> m in multiset(a);
      assert m in b <==> m in multiset(b);
    }
    TokensPermute(cost, a, b);
  }

  ghost predicate DisjointGroups(gs: seq<DeliveryGroup>) {
    forall i, j, m :: 0 <= i < j < |gs| && m in gs[i].messages ==> m !in gs[j].messages
  }

  /** Sum of `f` over the groups. */
  ghost function SumOver(f: DeliveryGroup -> nat, gs: seq<DeliveryGroup>): nat {
    if gs == [] then 0 else SumOver(f, gs[..|gs| - 1]) + f(gs[|gs| - 1])
  }

  lemma {:induction false} SumOverAppends(f: DeliveryGroup -> nat, a: seq<DeliveryGroup>, b: seq<DeliveryGroup>)
    ensures SumOver(f, a + b) == SumOver(f, a) + SumOver(f, b)
  {
    if b == [] {
      assert a + b == a;
    } else {
      SumOverAppends(f, a, b[..|b| - 1]);
      assert (a + b)[..|a + b| - 1] == a + b[..|b| - 1];
    }
  }

  lemma {:induction false} SumOverPermutes(f: DeliveryGroup -> nat, a: seq<DeliveryGroup>, b: seq<DeliveryGroup>)
    requires multiset(a) == multiset(b)
    ensures SumOver(f, a) == SumOver(f, b)
    decreases |a|
  {
    if a == [] {
      assert |multiset(b)| == |b|;
    } else {
      var i := RemoveOne(a, b);
      SumOverPermutes(f, a[..|a| - 1], b[..i] + b[i + 1..]);
      SumOverAppends(f, b[..i], b[i + 1..]);
      SumOverAppends(f, b[..i] + [b[i]], b[i + 1..]);
      SumOverAppends(f, b[..i], [b[i]]);
      assert [b[i]][..0] == [];
    }
  }

  /** The tokens of one group. */
  ghost function GroupTokens(cost: Message -> nat): DeliveryGroup -> nat {
    (g: DeliveryGroup) => Tokens(cost, g.messages)
  }

  ghost function TotalCost(cost: Message -> nat, gs: seq<DeliveryGroup>): nat {
    SumOver(GroupTokens(cost), gs)
  }

  lemma {:induction false} FlattenCost(cost: Message -> nat, gs: seq<DeliveryGroup>)
    ensures Tokens(cost, Flatten(gs)) == TotalCost(cost, gs)
  {
    if gs != [] {
      FlattenCost(cost, gs[..|gs| - 1]);
      TokensAppend(cost, Flatten(gs[..|gs| - 1]), gs[|gs| - 1].messages);
    }
  }

  lemma {:induction false} FlattenDistinct(gs: seq<DeliveryGroup>)
    requires DisjointGroups(gs) && forall g :: g in gs ==> Distinct(g.messages)
    ensures Distinct(Flatten(gs))
  {
    if gs != [] {
      var front, g := gs[..|gs| - 1], gs[|gs| - 1];
      assert g in gs && forall h :: h in front ==> h in gs;
      FlattenDistinct(front);
      forall m | m in g.messages ensures m !in Flatten(front) {
        FlattenHolds(front, m);
        forall h | h in front ensures m !in h.messages {
          var i :| 0 <= i < |front| && front[i] == h;
          assert gs[i] == h;
        }
      }
      AppendDistinct(Flatten(front), g.messages);
    }
  }

  /** On disjoint groups the wire's token cost is the sum of the groups' costs. */
  lemma WireCostIsAdditive(cost: Message -> nat, gs: seq<DeliveryGroup>, already: set<string>, wire: seq<Message>)
    requires DisjointGroups(gs) && (forall g :: g in gs ==> Distinct(g.messages))
    requires forall g, m :: g in gs && m in g.messages ==> m.id !in already
    requires WireOf(gs, already, wire)
    ensures Tokens(cost, wire) == TotalCost(cost, gs)
  {
    FlattenDistinct(gs);
    FlattenCost(cost, gs);
    forall m ensures m in wire <==> m in Flatten(gs) {
      FlattenHolds(gs, m);
      if InGroups(gs, m) { var g :| g in gs && m in g.messages; }
    }
    TokensOfSameMessages(cost, wire, Flatten(gs));
  }
}
