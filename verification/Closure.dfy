/** Exact transitive protocol closure of a delivery root (rrc/protocol.go, CloseGroup). */
module Closure {
  import opened Messages
  import opened Protocol
  import opened Sorting

  /** An atomic restoration unit: the admitted root and every counterpart it needs. */
  datatype DeliveryGroup = DeliveryGroup(
    rootID: string,
    rootIDs: seq<string>,
    score: real,
    messages: seq<Message>)

  datatype ClosureResult = Closed(group: DeliveryGroup) | Failed(at: Message, block: Block)

  datatype Lookup = NotTool | Missing | Ambiguous | Found(message: Message)

  function Counterpart(idx: Index, m: Message, b: Block): Lookup {
    match b
    case ToolCall(id, _, _) =>
      var k := Key(m.thread, id);
      if k in idx.ambiguousResults then Ambiguous
      else if k in idx.resultByKey then Found(idx.resultByKey[k]) else Missing
    case ToolResult(callID, _, _) =>
      var k := Key(m.thread, callID);
      if k in idx.ambiguousCalls then Ambiguous
      else if k in idx.callByKey then Found(idx.callByKey[k]) else Missing
    case _ => NotTool
  }

  predicate Broken(idx: Index, m: Message, b: Block) {
    Counterpart(idx, m, b).Missing? || Counterpart(idx, m, b).Ambiguous?
  }

  ghost predicate Whole(idx: Index, m: Message) {
    forall b :: b in m.content ==> !Broken(idx, m, b)
  }

  ghost predicate Linked(idx: Index, m: Message, x: Message) {
    exists b :: b in m.content && Counterpart(idx, m, b) == Found(x)
  }

  /** Every block of every member is paired inside the set. */
  ghost predicate ClosedSet(idx: Index, s: set<Message>) {
    forall m :: m in s ==> Whole(idx, m) && forall x :: Linked(idx, m, x) ==> x in s
  }

  ghost function Held(messages: seq<Message>): set<Message> {
    set m | m in messages
  }

  ghost predicate Path(idx: Index, p: seq<Message>) {
    && p != []
    && (forall i, j {:trigger Linked(idx, p[i], p[j])} :: 0 <= i && j == i + 1 && j < |p| ==> Linked(idx, p[i], p[j]))
  }

  /** Following counterparts from `root` arrives at `m`. */
  ghost predicate Needs(idx: Index, root: Message, m: Message) {
    exists p :: Path(idx, p) && p[0] == root && p[|p| - 1] == m
  }

  lemma NeedsItself(idx: Index, root: Message)
    ensures Needs(idx, root, root)
  {
    assert Path(idx, [root]);
  }

  lemma NeedsExtends(idx: Index, root: Message, m: Message, x: Message)
    requires Needs(idx, root, m) && Linked(idx, m, x)
    ensures Needs(idx, root, x)
  {
    var p :| Path(idx, p) && p[0] == root && p[|p| - 1] == m;
    var q := p + [x];
    assert Path(idx, q);
  }

  /** A closed set that holds the root holds everything the root needs. */
  lemma {:induction false} ClosedHoldsPath(idx: Index, s: set<Message>, p: seq<Message>, n: nat)
    requires ClosedSet(idx, s) && Path(idx, p) && p[0] in s && n < |p|
    ensures p[n] in s
  {
    if n > 0 {
      ClosedHoldsPath(idx, s, p, n - 1);
      assert Linked(idx, p[n - 1], p[n]);
    }
  }

  lemma ClosedHoldsNeeds(idx: Index, s: set<Message>, root: Message, m: Message)
    requires ClosedSet(idx, s) && root in s && Needs(idx, root, m)
    ensures m in s
  {
    var p :| Path(idx, p) && p[0] == root && p[|p| - 1] == m;
    ClosedHoldsPath(idx, s, p, |p| - 1);
  }

  // ----- The breadth-first closure -----

  /** Every message the closure of `root` could meet. */
  ghost function Universe(idx: Index, root: Message): set<Message> {
    idx.callByKey.Values + idx.resultByKey.Values + {root}
  }

  /** No two messages the root needs share an id. */
  ghost predicate OneNeededPerId(idx: Index, root: Message) {
    forall a, b {:trigger Needs(idx, root, a), Needs(idx, root, b)} ::
      Needs(idx, root, a) && Needs(idx, root, b) && a.id == b.id ==> a == b
  }

  ghost predicate Named(messages: seq<Message>, id: string) {
    exists m :: m in messages && m.id == id
  }

  lemma LinkedInUniverse(idx: Index, root: Message, m: Message, x: Message)
    requires Linked(idx, m, x)
    ensures x in Universe(idx, root)
  {
  }

  /** The ids of `messages` are exactly `seen`, and none occurs twice. */
  ghost predicate Tracks(u: set<Message>, messages: seq<Message>, seen: set<string>) {
    && Distinct(messages) && UniqueIds(messages)
    && (forall m :: m in messages ==> m in u && m.id in seen)
    && (forall id :: id in seen ==> Named(messages, id))
  }

  /** The first `n` blocks of `m` are paired inside `messages`. */
  ghost predicate PairedUpTo(idx: Index, m: Message, n: nat, messages: seq<Message>)
    requires n <= |m.content|
  {
    forall j {:trigger PairedBlock(idx, m, m.content[j], messages)} :: 0 <= j < n ==>
            PairedBlock(idx, m, m.content[j], messages)
  }

  /** `b` needs no counterpart, or `messages` has one of its id. */
  ghost predicate PairedBlock(idx: Index, m: Message, b: Block, messages: seq<Message>) {
    || Counterpart(idx, m, b).NotTool?
    || (Counterpart(idx, m, b).Found? && Named(messages, Counterpart(idx, m, b).message.id))
  }

  lemma NamedIn(messages: seq<Message>, id: string, more: seq<Message>)
    requires Named(messages, id) && forall m :: m in messages ==> m in more
    ensures Named(more, id)
  {
    var m :| m in messages && m.id == id;
    assert m in more;
  }

  lemma PairedIn(idx: Index, m: Message, b: Block, messages: seq<Message>, more: seq<Message>)
    requires PairedBlock(idx, m, b, messages) && forall x :: x in messages ==> x in more
    ensures PairedBlock(idx, m, b, more)
  {
    if Counterpart(idx, m, b).Found? { NamedIn(messages, Counterpart(idx, m, b).message.id, more); }
  }

  lemma PairedNext(idx: Index, m: Message, n: nat, messages: seq<Message>, added: seq<Message>)
    requires n < |m.content| && PairedUpTo(idx, m, n, messages)
    requires PairedBlock(idx, m, m.content[n], messages + added)
    ensures PairedUpTo(idx, m, n + 1, messages + added)
  {
    forall j | 0 <= j < n + 1 ensures PairedBlock(idx, m, m.content[j], messages + added) {
      if j < n {
        assert PairedBlock(idx, m, m.content[j], messages);
        PairedIn(idx, m, m.content[j], messages, messages + added);
      }
    }
  }

  ghost predicate Paired(idx: Index, m: Message, messages: seq<Message>) {
    PairedUpTo(idx, m, |m.content|, messages)
  }

  ghost predicate AllNeeded(idx: Index, root: Message, messages: seq<Message>) {
    forall m {:trigger Needs(idx, root, m)} :: m in messages ==> Needs(idx, root, m)
  }

  lemma CounterpartIsNeeded(idx: Index, root: Message, current: Message, b: Block, x: Message)
    requires Needs(idx, root, current) && b in current.content && Counterpart(idx, current, b) == Found(x)
    ensures Needs(idx, root, x) && x in Universe(idx, root)
  {
    assert Linked(idx, current, x);
    NeedsExtends(idx, root, current, x);
    LinkedInUniverse(idx, root, current, x);
  }

  /** The first `n` blocks of `current` have been paired. */
  ghost predicate Expanding(idx: Index, root: Message, current: Message, n: nat, messages: seq<Message>,
                            seen: set<string>)
    requires n <= |current.content|
  {
    Tracks(Universe(idx, root), messages, seen) && AllNeeded(idx, root, messages) &&
        PairedUpTo(idx, current, n, messages)
  }

  /** Adds the counterpart `x` of one block unless it is there already. */
  method Adopt(idx: Index, ghost root: Message, current: Message, ghost n: nat, x: Message,
               messages0: seq<Message>, seen0: set<string>, queue0: seq<Message>)
    returns (messages: seq<Message>, seen: set<string>, queue: seq<Message>, ghost added: seq<Message>)
    requires Needs(idx, root, current)
    requires n < |current.content| && Counterpart(idx, current, current.content[n]) == Found(x)
    requires Expanding(idx, root, current, n, messages0, seen0)
    ensures Expanding(idx, root, current, n + 1, messages, seen)
    ensures messages == messages0 + added && queue == queue0 + added
  {
    CounterpartIsNeeded(idx, root, current, current.content[n], x);
    if x.id !in seen0 {
      TracksMore(Universe(idx, root), messages0, seen0, x);
      NeededMore(idx, root, messages0, x);
      assert x in messages0 + [x];
      PairedNext(idx, current, n, messages0, [x]);
      messages, seen, queue, added := messages0 + [x], seen0 + {x.id}, queue0 + [x], [x];
    } else {
      assert messages0 + [] == messages0;
      PairedNext(idx, current, n, messages0, []);
      messages, seen, queue, added := messages0, seen0, queue0, [];
    }
  }

  /** Pairs the blocks of `current`, appending each counterpart met for the first time. */
  method Expand(idx: Index, ghost root: Message, current: Message, messages0: seq<Message>, seen0: set<string>,
                queue0: seq<Message>)
    returns (stuck: bool, at: Block, messages: seq<Message>, seen: set<string>, queue: seq<Message>,
             ghost added: seq<Message>)
    requires Tracks(Universe(idx, root), messages0, seen0)
    requires AllNeeded(idx, root, messages0) && Needs(idx, root, current)
    ensures stuck ==> at in current.content && Broken(idx, current, at)
    ensures !stuck ==>
              && Tracks(Universe(idx, root), messages, seen) && AllNeeded(idx, root, messages)
              && Paired(idx, current, messages)
              && messages == messages0 + added && queue == queue0 + added
  {
    stuck, at, messages, seen, queue, added := false, Media, messages0, seen0, queue0, [];
    for j := 0 to |current.content|
      invariant Expanding(idx, root, current, j, messages, seen)
      invariant messages == messages0 + added && queue == queue0 + added
    {
      var b := current.content[j];
      match Counterpart(idx, current, b)
      case NotTool =>
        assert messages + [] == messages;
        PairedNext(idx, current, j, messages, []);
      case Missing => return true, b, messages, seen, queue, added;
      case Ambiguous => return true, b, messages, seen, queue, added;
      case Found(x) =>
        ghost var more;
        messages, seen, queue, more := Adopt(idx, root, current, j, x, messages, seen, queue);
        Reassociate(messages0, added, more);
        Reassociate(queue0, added, more);
        added := added + more;
    }
  }

  lemma Reassociate(a: seq<Message>, b: seq<Message>, c: seq<Message>)
    ensures (a + b) + c == a + (b + c)
  {
  }

  lemma NeededMore(idx: Index, root: Message, messages: seq<Message>, x: Message)
    requires AllNeeded(idx, root, messages) && Needs(idx, root, x)
    ensures AllNeeded(idx, root, messages + [x])
  {
  }

  lemma TracksMore(u: set<Message>, messages: seq<Message>, seen: set<string>, x: Message)
    requires Tracks(u, messages, seen) && x in u && x.id !in seen
    ensures Tracks(u, messages + [x], seen + {x.id})
  {
    assert x !in messages;
    forall id | id in seen + {x.id} ensures Named(messages + [x], id) {
      if id in seen {
        NamedIn(messages, id, messages + [x]);
      } else {
        assert x in messages + [x];
      }
    }
  }

  /** The closure of a root: exactly what it needs, whole and closed, once each, in delivery
      order. */
  ghost predicate ClosureOf(idx: Index, root: Message, messages: seq<Message>) {
    && Distinct(messages)
    && (forall m :: m in messages <==> Needs(idx, root, m))
    && ClosedSet(idx, Held(messages))
    && SortedBy(NotLater, messages)
  }

  /** Everything in `done` has been expanded. */
  ghost predicate AllPaired(idx: Index, done: seq<Message>, messages: seq<Message>) {
    forall m {:trigger Paired(idx, m, messages)} :: m in done ==> Paired(idx, m, messages)
  }

  lemma PairedGrows(idx: Index, done: seq<Message>, current: Message, messages0: seq<Message>, messages: seq<Message>)
    requires AllPaired(idx, done, messages0) && Paired(idx, current, messages)
    requires forall m :: m in messages0 ==> m in messages
    ensures AllPaired(idx, done + [current], messages)
  {
    forall m | m in done + [current] ensures Paired(idx, m, messages) {
      if m in done {
        assert Paired(idx, m, messages0);
        forall j | 0 <= j < |m.content| ensures PairedBlock(idx, m, m.content[j], messages) {
          assert PairedBlock(idx, m, m.content[j], messages0);
          PairedIn(idx, m, m.content[j], messages0, messages);
        }
      }
    }
  }

  lemma Regroup(done: seq<Message>, queue: seq<Message>, added: seq<Message>)
    requires queue != []
    ensures (done + queue) + added == (done + [queue[0]]) + (queue[1..] + added)
  {
  }

  /** What a successful closure returns, whatever ids the corpus has: only what the root needs,
      the root among it, one message per id, and every counterpart at least by its id. */
  ghost predicate NamesClosed(idx: Index, root: Message, messages: seq<Message>) {
    && Distinct(messages) && UniqueIds(messages) && root in messages
    && AllNeeded(idx, root, messages) && AllPaired(idx, messages, messages)
    && SortedBy(NotLater, messages)
  }

  /** It is the closure exactly when no two needed messages share an id. */
  lemma ClosureIsExact(idx: Index, root: Message, messages: seq<Message>)
    requires NamesClosed(idx, root, messages)
    ensures ClosureOf(idx, root, messages) <==> OneNeededPerId(idx, root)
  {
    if OneNeededPerId(idx, root) {
      AllPairedIsClosed(idx, root, messages);
      ClosedIsClosure(idx, root, messages);
    }
  }

  /** A result that reuses the id of its call is left out, although the call needs it. */
  lemma SharedIdIsLeftOut() returns (idx: Index, root: Message, result: Message)
    ensures IndexOf(idx, [root, result]) && NamesClosed(idx, root, [root]) && !ClosureOf(idx, root, [root])
  {
    root := Message("m", "t", "", 0, Assistant, [ToolCall("c", "", "")]);
    result := Message("m", "t", "", 1, Assistant, [ToolResult("c", "", false)]);
    idx := Index(map[Key("t", "c") := root], map[Key("t", "c") := result], {}, {});
    assert root.content[0] in root.content && result.content[0] in result.content;
    PairIsIndexed(root, result, "c");
    NeedsItself(idx, root);
    assert Counterpart(idx, root, root.content[0]) == Found(result);
    assert Linked(idx, root, result);
    NeedsExtends(idx, root, root, result);
    assert root in [root] && Named([root], "m");
    assert PairedBlock(idx, root, root.content[0], [root]);
    assert result !in [root];
  }

  /** The index of a call and its result. */
  lemma PairIsIndexed(m: Message, x: Message, call: string)
    requires m.id == x.id && m.thread == x.thread && call != ""
    requires |m.content| == |x.content| == 1 && m.content[0].ToolCall? && x.content[0].ToolResult?
    requires m.content[0].id == call && x.content[0].callID == call
    ensures var k := Key(m.thread, call); IndexOf(Index(map[k := m], map[k := x], {}, {}), [m, x])
  {
    var k, corpus := Key(m.thread, call), [m, x];
    assert m.content[0] in m.content && x.content[0] in x.content;
    forall o, l | o in corpus ensures (Calls(o, l) <==> o == m && l == k) && (Answers(o, l) <==> o == x && l == k) { }
    assert m in corpus && x in corpus;
  }

  lemma NamedIsHeld(idx: Index, root: Message, messages: seq<Message>, x: Message)
    requires OneNeededPerId(idx, root) && AllNeeded(idx, root, messages)
    requires Needs(idx, root, x) && Named(messages, x.id)
    ensures x in messages
  {
    var m :| m in messages && m.id == x.id;
    assert Needs(idx, root, m);
  }

  lemma AllPairedIsClosed(idx: Index, root: Message, messages: seq<Message>)
    requires OneNeededPerId(idx, root) && AllNeeded(idx, root, messages) && AllPaired(idx, messages, messages)
    ensures ClosedSet(idx, Held(messages))
  {
    forall m | m in messages ensures Whole(idx, m) && forall x :: Linked(idx, m, x) ==> x in messages {
      assert Paired(idx, m, messages) && Needs(idx, root, m);
      forall b | b in m.content ensures !Broken(idx, m, b) {
        var j :| 0 <= j < |m.content| && m.content[j] == b;
        assert PairedBlock(idx, m, m.content[j], messages);
      }
      forall x | Linked(idx, m, x) ensures x in messages {
        var b :| b in m.content && Counterpart(idx, m, b) == Found(x);
        var j :| 0 <= j < |m.content| && m.content[j] == b;
        assert PairedBlock(idx, m, m.content[j], messages);
        NeedsExtends(idx, root, m, x);
        NamedIsHeld(idx, root, messages, x);
      }
    }
  }

  lemma ClosedIsClosure(idx: Index, root: Message, messages: seq<Message>)
    requires root in messages && AllNeeded(idx, root, messages) && ClosedSet(idx, Held(messages))
    ensures forall m :: m in messages <==> Needs(idx, root, m)
  {
    forall m | Needs(idx, root, m) ensures m in messages {
      ClosedHoldsNeeds(idx, Held(messages), root, m);
    }
  }

  lemma SortKeepsClosed(idx: Index, root: Message, messages: seq<Message>, seen: set<string>)
    requires Tracks(Universe(idx, root), messages, seen) && root in messages
    requires AllNeeded(idx, root, messages) && AllPaired(idx, messages, messages)
    ensures NamesClosed(idx, root, Sort(NotLater, messages))
  {
    var sorted := Sort(NotLater, messages);
    NotLaterOrders();
    SortSorts(NotLater, messages);
    SortMembers(NotLater, messages);
    SortKeepsDistinct(NotLater, messages);
    forall m | m in sorted ensures Needs(idx, root, m) && Paired(idx, m, sorted) {
      assert m in messages && Paired(idx, m, messages) && Needs(idx, root, m);
      forall j | 0 <= j < |m.content| ensures PairedBlock(idx, m, m.content[j], sorted) {
        PairedIn(idx, m, m.content[j], messages, sorted);
      }
    }
    assert root in sorted;
  }

  lemma MoreLeavesLess(u: set<Message>, a: seq<Message>, added: seq<Message>)
    requires added != [] && Distinct(a + added) && forall m :: m in a + added ==> m in u
    ensures |u - Held(a + added)| < |u - Held(a)|
  {
    var lo, hi, x := u - Held(a + added), u - Held(a), added[0];
    assert x == (a + added)[|a|];
    forall i | 0 <= i < |a| ensures a[i] != x { assert (a + added)[i] == a[i]; }
    assert x in hi && x !in lo && lo <= hi - {x};
    assert hi == (hi - {x}) + {x} && |hi| == |hi - {x}| + 1;
    assert hi - {x} == lo + ((hi - {x}) - lo);
    assert |hi - {x}| == |lo| + |(hi - {x}) - lo|;
  }

  /** Between two expansions: everything met is expanded or waiting. */
  ghost predicate Exploring(idx: Index, root: Message, done: seq<Message>, queue: seq<Message>,
                          messages: seq<Message>, seen: set<string>) {
    && messages == done + queue && root in messages
    && Tracks(Universe(idx, root), messages, seen) && AllNeeded(idx, root, messages)
    && AllPaired(idx, done, messages)
  }

  /** How many messages the closure could still meet. */
  ghost function Unmet(idx: Index, root: Message, messages: seq<Message>): nat {
    |Universe(idx, root) - Held(messages)|
  }

  lemma StillExploring(idx: Index, root: Message, done: seq<Message>, queue: seq<Message>, messages: seq<Message>,
                     added: seq<Message>, messages': seq<Message>, seen': set<string>)
    requires queue != [] && messages == done + queue && root in messages && AllPaired(idx, done, messages)
    requires messages' == messages + added && Paired(idx, queue[0], messages')
    requires Tracks(Universe(idx, root), messages', seen') && AllNeeded(idx, root, messages')
    ensures Exploring(idx, root, done + [queue[0]], queue[1..] + added, messages', seen')
    ensures if added == [] then messages' == messages else Unmet(idx, root, messages') < Unmet(idx, root, messages)
  {
    PairedGrows(idx, done, queue[0], messages, messages');
    Regroup(done, queue, added);
    if added != [] { MoreLeavesLess(Universe(idx, root), messages, added); }
  }

  /** Expands the head of the queue. */
  method Explore(idx: Index, ghost root: Message, ghost done: seq<Message>, messages0: seq<Message>, seen0: set<string>,
                 queue0: seq<Message>)
    returns (stuck: bool, at: Block, messages: seq<Message>, seen: set<string>, queue: seq<Message>)
    requires queue0 != [] && Exploring(idx, root, done, queue0, messages0, seen0)
    ensures stuck ==> Needs(idx, root, queue0[0]) && at in queue0[0].content && Broken(idx, queue0[0], at)
    ensures !stuck ==> Exploring(idx, root, done + [queue0[0]], queue, messages, seen)
    ensures !stuck ==>
              Unmet(idx, root, messages) < Unmet(idx, root, messages0) ||
              (messages == messages0 && |queue| < |queue0|)
  {
    var current := queue0[0];
    assert current in done + queue0;
    ghost var added;
    stuck, at, messages, seen, queue, added := Expand(idx, root, current, messages0, seen0, queue0[1..]);
    if !stuck {
      StillExploring(idx, root, done, queue0, messages0, added, messages, seen);
    }
  }

  lemma StartExploring(idx: Index, root: Message)
    ensures Exploring(idx, root, [], [root], [root], {root.id})
  {
    NeedsItself(idx, root);
    assert root in [root];
  }

  lemma ExploredIsClosed(idx: Index, root: Message, done: seq<Message>, messages: seq<Message>, seen: set<string>)
    requires Exploring(idx, root, done, [], messages, seen)
    ensures NamesClosed(idx, root, Sort(NotLater, messages))
    ensures ClosureOf(idx, root, Sort(NotLater, messages)) <==> OneNeededPerId(idx, root)
    ensures ThreadByThread(Sort(NotLater, messages))
  {
    assert done + [] == done;
    SortKeepsClosed(idx, root, messages, seen);
    ClosureIsExact(idx, root, Sort(NotLater, messages));
    NotLaterIsByThread(Sort(NotLater, messages));
  }

  method CloseGroup(idx: Index, root: Message, score: real) returns (r: ClosureResult)
    ensures r.Closed? ==>
              && NamesClosed(idx, root, r.group.messages) && ThreadByThread(r.group.messages)
              && (ClosureOf(idx, root, r.group.messages) <==> OneNeededPerId(idx, root))
              && r.group.rootID == root.id && r.group.rootIDs == [root.id] && r.group.score == score
    ensures r.Failed? ==> Needs(idx, root, r.at) && r.block in r.at.content && Broken(idx, r.at, r.block)
  {
    var seen, queue, messages := {root.id}, [root], [root];
    ghost var done: seq<Message> := [];
    StartExploring(idx, root);
    while queue != []
      invariant Exploring(idx, root, done, queue, messages, seen)
      decreases Unmet(idx, root, messages), |queue|
    {
      var current := queue[0];
      var stuck, at;
      stuck, at, messages, seen, queue := Explore(idx, root, done, messages, seen, queue);
      if stuck {
        return Failed(current, at);
      }
      done := done + [current];
    }
    ExploredIsClosed(idx, root, done, messages, seen);
    r := Closed(DeliveryGroup(root.id, [root.id], score, Sort(NotLater, messages)));
  }

  /** Closure fails exactly when something the root needs is broken; it then has no closed
      superset at all. */
  lemma FailureIsForced(idx: Index, root: Message, at: Message, b: Block, s: set<Message>)
    requires Needs(idx, root, at) && b in at.content && Broken(idx, at, b)
    requires root in s
    ensures !ClosedSet(idx, s)
  {
    if ClosedSet(idx, s) {
      ClosedHoldsNeeds(idx, s, root, at);
      assert false;
    }
  }

  /** A successful closure is the least closed set that holds the root. */
  lemma ClosureIsLeast(idx: Index, root: Message, messages: seq<Message>, s: set<Message>)
    requires ClosureOf(idx, root, messages) && root in s && ClosedSet(idx, s)
    ensures root in messages && forall m :: m in messages ==> m in s
  {
    NeedsItself(idx, root);
    forall m | m in messages ensures m in s {
      ClosedHoldsNeeds(idx, s, root, m);
    }
  }
}
