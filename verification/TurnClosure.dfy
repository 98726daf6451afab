/** A turn's rows never break protocol closure, and carry unique ids and positions
    (service/agent/runner.go, rrc/protocol.go). */
module TurnClosure {
  import opened Messages
  import opened Protocol
  import opened Closure
  import opened Sorting
  import opened Turn

  // ----- Ids and positions -----

  ghost predicate Injective(src: Source) {
    forall i: nat, j: nat :: src.mint(i) == src.mint(j) ==> i == j
  }

  /** `m` was minted after `base` and no later than `top`. */
  ghost predicate MintedIn(src: Source, base: nat, top: nat, m: Message) {
    base < m.position <= top && m.id == src.mint(m.position) && m.thread == src.thread && m.turn == src.turn
  }

  /** Stored and buffered messages all have their own position. */
  ghost predicate Stamped(src: Source, base: nat, s: State) {
    && RowsMinted(src, base, s.msgSeq, s.rows) && Stacked(s.rows)
    && (forall c :: c in s.pending ==> MintedIn(src, base, s.msgSeq, s.pending[c]) && MakesCall(s.pending[c], c))
    && (forall c, m :: c in s.pending && m in s.rows ==> s.pending[c].position != m.position)
    && (forall c, d :: c in s.pending && d in s.pending && c != d ==> s.pending[c].position != s.pending[d].position)
    && base <= s.msgSeq
  }

  ghost predicate RowsMinted(src: Source, base: nat, top: nat, rows: seq<Message>) {
    && (forall m :: m in rows ==> MintedIn(src, base, top, m))
    && (forall i, j :: 0 <= i < j < |rows| ==> rows[i].position != rows[j].position)
  }

  ghost predicate MakesCall(m: Message, id: string) {
    IsCall(m) && m.content[0].id == id
  }

  /** Only a call may stand below rows stored before it, and a result stands next to its call. */
  ghost predicate Stacked(rows: seq<Message>) {
    && (forall i, j :: 0 <= i < j < |rows| && !IsCall(rows[j]) ==> rows[i].position < rows[j].position)
    && (forall j :: 0 <= j < |rows| && IsResult(rows[j]) ==> j > 0 && MakesCall(rows[j - 1], rows[j].content[0].callID))
  }

  lemma AppendStamped(src: Source, base: nat, s: State, m: Message)
    requires Stamped(src, base, s) && m == Minted(src, s, m.content)
    requires IsResult(m) ==> s.rows != [] && MakesCall(s.rows[|s.rows| - 1], m.content[0].callID)
    ensures Stamped(src, base, s.(rows := s.rows + [m], msgSeq := s.msgSeq + 1))
    ensures Stamped(src, base, s.(msgSeq := s.msgSeq + 1))
  {
    MintOne(src, base, s.msgSeq, s.rows, m);
    StackOne(s.rows, m);
  }

  lemma MintOne(src: Source, base: nat, top: nat, rows: seq<Message>, m: Message)
    requires RowsMinted(src, base, top, rows) && base <= top && MintedIn(src, base, top + 1, m) && m.position == top + 1
    ensures RowsMinted(src, base, top + 1, rows + [m]) && RowsMinted(src, base, top + 1, rows)
    ensures forall i :: 0 <= i < |rows| ==> rows[i].position < m.position
  {
    forall i | 0 <= i < |rows| ensures rows[i].position < m.position { assert rows[i] in rows; }
  }

  lemma StackOne(rows: seq<Message>, m: Message)
    requires Stacked(rows)
    requires IsResult(m) ==> rows != [] && MakesCall(rows[|rows| - 1], m.content[0].callID)
    requires IsCall(m) || forall i :: 0 <= i < |rows| ==> rows[i].position < m.position
    ensures Stacked(rows + [m])
  {
  }

  lemma StoreThinkingStamps(src: Source, base: nat, s: State, ok: bool)
    requires Stamped(src, base, s)
    ensures Stamped(src, base, StoreThinking(src, s, ok))
  {
    AppendStamped(src, base, s, Minted(src, s, [Thinking(s.thinking)]));
  }

  lemma BufferedStamps(src: Source, base: nat, s: State, fc: FunctionCall)
    requires Stamped(src, base, s)
    ensures Stamped(src, base, Buffered(src, s, fc))
  {
  }

  lemma WritePairStamps(src: Source, base: nat, s: State, id: string, content: string, isError: bool)
    requires Stamped(src, base, s) && id in s.pending
    ensures Stamped(src, base, WritePair(src, s, id, content, isError))
  {
    var call, result := s.pending[id], Minted(src, s, [ToolResult(id, content, isError)]);
    var s1 := s.(rows := s.rows + [call], pending := s.pending - {id});
    StoreCallStamps(src, base, s, id);
    AppendStamped(src, base, s1, result);
    assert s.rows + [call, result] == s1.rows + [result];
  }

  lemma StoreCallStamps(src: Source, base: nat, s: State, id: string)
    requires Stamped(src, base, s) && id in s.pending
    ensures Stamped(src, base, s.(rows := s.rows + [s.pending[id]], pending := s.pending - {id}))
  {
    forall i | 0 <= i < |s.rows| ensures s.rows[i].position != s.pending[id].position { assert s.rows[i] in s.rows; }
    StackOne(s.rows, s.pending[id]);
  }

  lemma TakeTextStamps(src: Source, base: nat, s: State, p: Part, ok: bool)
    requires Stamped(src, base, s)
    ensures Stamped(src, base, TakeText(src, s, p, ok))
  {
    StoreThinkingStamps(src, base, s.(thinking := s.thinking + p.text), ok);
  }

  lemma TakeResponseStamps(src: Source, base: nat, s: State, fr: FunctionResponse, w: World)
    requires Stamped(src, base, s)
    ensures Stamped(src, base, TakeResponse(src, s, fr, w))
  {
    AppendStamped(src, base, s, Minted(src, s, []));
    if Stored(s, fr, w) { WritePairStamps(src, base, s, fr.id, fr.output, false); }
  }

  lemma BufferCallStamps(src: Source, base: nat, s: State, fc: FunctionCall, flushOk: bool)
    requires Stamped(src, base, s)
    ensures Stamped(src, base, BufferCall(src, s, fc, flushOk))
  {
    StoreThinkingStamps(src, base, s, flushOk);
    BufferedStamps(src, base, StoreThinking(src, s, flushOk), fc);
  }

  lemma TakePartStamps(src: Source, base: nat, s: State, p: Part, w: World)
    requires Stamped(src, base, s) && !Refused(p)
    ensures Stamped(src, base, TakePart(src, s, p, w))
  {
    var s1 := if p.call.Some? then BufferCall(src, s, p.call.value, w.flushOk) else s;
    if p.call.Some? { BufferCallStamps(src, base, s, p.call.value, w.flushOk); }
    TakeTextStamps(src, base, s1, p, w.signedOk);
    if p.response.Some? {
      TakeResponseStamps(src, base, s1, p.response.value, w);
      TakeTextStamps(src, base, TakeResponse(src, s1, p.response.value, w), p, w.signedOk);
    }
  }

  lemma {:induction false} TakePartsStamps(src: Source, base: nat, s: State, parts: seq<(Part, World)>)
    requires Stamped(src, base, s)
    ensures Stamped(src, base, TakeParts(src, s, parts).0)
  {
    if parts != [] {
      TakePartsStamps(src, base, s, parts[..|parts| - 1]);
      var (s1, refused) := TakeParts(src, s, parts[..|parts| - 1]);
      var (p, w) := parts[|parts| - 1];
      if !refused && !Refused(p) { TakePartStamps(src, base, s1, p, w); }
    }
  }

  lemma {:induction false} TakeEventsStamps(src: Source, base: nat, s: State, events: seq<Event>)
    requires Stamped(src, base, s)
    ensures Stamped(src, base, TakeEvents(src, s, events).0)
  {
    if events != [] {
      TakeEventsStamps(src, base, s, events[..|events| - 1]);
      var (s1, refused) := TakeEvents(src, s, events[..|events| - 1]);
      var e := events[|events| - 1];
      if e.Content? { TakePartsStamps(src, base, s1, e.parts); }
    }
  }

  lemma {:induction false} FlushStamps(src: Source, base: nat, s: State, writes: nat -> bool, n: nat)
    requires Stamped(src, base, s) && n <= |s.order|
    ensures Stamped(src, base, Flush(src, s, writes, n))
  {
    if n > 0 {
      FlushStamps(src, base, s, writes, n - 1);
      FlushOneStamps(src, base, Flush(src, s, writes, n - 1), s.order[n - 1], writes(n - 1));
    }
  }

  lemma FlushOneStamps(src: Source, base: nat, s: State, id: string, ok: bool)
    requires Stamped(src, base, s)
    ensures Stamped(src, base, FlushOne(src, s, id, ok))
  {
    AppendStamped(src, base, s, Minted(src, s, []));
    if id in s.pending { WritePairStamps(src, base, s, id, Placeholder(s.failure), true); }
  }

  lemma FinishStamps(src: Source, base: nat, s: State, ok: bool)
    requires Stamped(src, base, s)
    ensures Stamped(src, base, Finish(src, s, ok))
  {
    var content := FinalContent(s);
    assert |content| == 1 ==> content[0].Thinking? || content[0].Text?;
    AppendStamped(src, base, s, Minted(src, s, content));
  }

  /** The rows of a turn satisfy what delivery relies on: one message per id and per position. */
  lemma StampedIsUnique(src: Source, base: nat, s: State)
    requires Injective(src) && Stamped(src, base, s)
    ensures UniqueIds(s.rows) && UniquePositions(s.rows)
  {
    forall a, b | a in s.rows && b in s.rows && a.position == b.position ensures a == b {
      var i :| 0 <= i < |s.rows| && s.rows[i] == a;
      var j :| 0 <= j < |s.rows| && s.rows[j] == b;
    }
  }

  /** Every result comes later than each call of the rows it answers. */
  ghost predicate ResultsComeLater(rows: seq<Message>) {
    forall a, b :: a in rows && b in rows && IsResult(b) && MakesCall(a, b.content[0].callID) ==>
            a.position < b.position
  }

  lemma {:induction false} CallStandsOnce(rows: seq<Message>, i: nat, j: nat, c: string)
    requires Distinct(CallIds(rows)) && i < j < |rows| && MakesCall(rows[i], c)
    ensures !MakesCall(rows[j], c)
  {
    var front := rows[..|rows| - 1];
    if j < |front| {
      assert CallIds(front) <= CallIds(rows);
      CallStandsOnce(front, i, j, c);
    } else {
      CallIdsHold(front, c);
      assert front[i] == rows[i];
      TwiceIsNotDistinct(CallIds(front), c);
    }
  }

  lemma TwiceIsNotDistinct(ids: seq<string>, c: string)
    requires c in ids
    ensures !Distinct(ids + [c])
  {
    var k :| 0 <= k < |ids| && ids[k] == c;
    assert (ids + [c])[k] == (ids + [c])[|ids|];
  }

  lemma StackedIsLater(rows: seq<Message>)
    requires Stacked(rows) && Distinct(CallIds(rows))
    ensures ResultsComeLater(rows)
  {
    forall a, b | a in rows && b in rows && IsResult(b) && MakesCall(a, b.content[0].callID)
      ensures a.position < b.position
    {
      var i :| 0 <= i < |rows| && rows[i] == a;
      var j :| 0 <= j < |rows| && rows[j] == b;
      var c := b.content[0].callID;
      if i < j - 1 { CallStandsOnce(rows, i, j - 1, c); } else if i > j - 1 { CallStandsOnce(rows, j - 1, i, c); }
    }
  }

  // ----- Closure -----

  lemma {:induction false} CallIdsHold(rows: seq<Message>, c: string)
    ensures c in CallIds(rows) <==> exists i :: 0 <= i < |rows| && IsCall(rows[i]) && rows[i].content[0].id == c
  {
    if rows != [] {
      CallIdsHold(rows[..|rows| - 1], c);
      if i :| 0 <= i < |rows| - 1 && IsCall(rows[i]) && rows[i].content[0].id == c {
        assert rows[..|rows| - 1][i] == rows[i];
      }
    }
  }

  lemma {:induction false} ResultIdsHold(rows: seq<Message>, c: string)
    ensures c in ResultIds(rows) <==> exists i :: 0 <= i < |rows| && IsResult(rows[i]) && rows[i].content[0].callID == c
  {
    if rows != [] {
      ResultIdsHold(rows[..|rows| - 1], c);
      if i :| 0 <= i < |rows| - 1 && IsResult(rows[i]) && rows[i].content[0].callID == c {
        assert rows[..|rows| - 1][i] == rows[i];
      }
    }
  }

  lemma DistinctPrefix(a: seq<string>, x: string)
    requires Distinct(a + [x])
    ensures Distinct(a) && x !in a
  {
    var s := a + [x];
    forall i, j | 0 <= i < j < |a| ensures a[i] != a[j] { assert s[i] != s[j]; }
    forall i | 0 <= i < |a| ensures a[i] != x { assert s[i] != s[|a|]; }
  }

  lemma {:induction false} OneCallRow(rows: seq<Message>, i: nat, j: nat)
    requires Distinct(CallIds(rows)) && i < j < |rows| && IsCall(rows[i]) && IsCall(rows[j])
    ensures rows[i].content[0].id != rows[j].content[0].id
  {
    var front, last := rows[..|rows| - 1], rows[|rows| - 1];
    if IsCall(last) { DistinctPrefix(CallIds(front), last.content[0].id); }
    if j == |rows| - 1 {
      CallIdsHold(front, rows[i].content[0].id);
      assert front[i] == rows[i];
    } else {
      OneCallRow(front, i, j);
    }
  }

  lemma {:induction false} OneResultRow(rows: seq<Message>, i: nat, j: nat)
    requires Distinct(ResultIds(rows)) && i < j < |rows| && IsResult(rows[i]) && IsResult(rows[j])
    ensures rows[i].content[0].callID != rows[j].content[0].callID
  {
    var front, last := rows[..|rows| - 1], rows[|rows| - 1];
    if IsResult(last) { DistinctPrefix(ResultIds(front), last.content[0].callID); }
    if j == |rows| - 1 {
      ResultIdsHold(front, rows[i].content[0].callID);
      assert front[i] == rows[i];
    } else {
      OneResultRow(front, i, j);
    }
  }

  lemma CallersAreOne(s: State, a: Message, b: Message, k: Key)
    requires InPairs(s) && a in s.rows && b in s.rows && Calls(a, k) && Calls(b, k)
    ensures a == b
  {
    var i :| 0 <= i < |s.rows| && s.rows[i] == a;
    var j :| 0 <= j < |s.rows| && s.rows[j] == b;
    if i < j { OneCallRow(s.rows, i, j); } else if j < i { OneCallRow(s.rows, j, i); }
  }

  lemma AnswerersAreOne(s: State, a: Message, b: Message, k: Key)
    requires InPairs(s) && a in s.rows && b in s.rows && Answers(a, k) && Answers(b, k)
    ensures a == b
  {
    var i :| 0 <= i < |s.rows| && s.rows[i] == a;
    var j :| 0 <= j < |s.rows| && s.rows[j] == b;
    if i < j { OneResultRow(s.rows, i, j); } else if j < i { OneResultRow(s.rows, j, i); }
  }

  ghost predicate OneThread(rows: seq<Message>) {
    forall a, b :: a in rows && b in rows ==> a.thread == b.thread
  }

  lemma CallIsAnswered(s: State, idx: Index, m: Message)
    requires InPairs(s) && OneThread(s.rows) && IndexOf(idx, s.rows) && m in s.rows && IsCall(m)
    ensures !Broken(idx, m, m.content[0])
  {
    var k := Key(m.thread, m.content[0].id);
    var x := ResultRow(s.rows, m);
    assert x.thread == m.thread && x.content[0] in x.content;
    assert m.content[0].id in CallIds(s.rows) by {
      CallIdsHold(s.rows, m.content[0].id);
      var i :| 0 <= i < |s.rows| && s.rows[i] == m;
    }
    assert Answers(x, k);
    forall a, b | a in s.rows && b in s.rows && Answers(a, k) && Answers(b, k) ensures a == b {
      AnswerersAreOne(s, a, b, k);
    }
  }

  lemma ResultRow(rows: seq<Message>, m: Message) returns (x: Message)
    requires CallIds(rows) == ResultIds(rows) && m in rows && IsCall(m)
    ensures x in rows && IsResult(x) && x.content[0].callID == m.content[0].id
  {
    var i :| 0 <= i < |rows| && rows[i] == m;
    CallIdsHold(rows, m.content[0].id);
    ResultIdsHold(rows, m.content[0].id);
    var j :| 0 <= j < |rows| && IsResult(rows[j]) && rows[j].content[0].callID == m.content[0].id;
    x := rows[j];
  }

  lemma ResultIsCalled(s: State, idx: Index, m: Message)
    requires InPairs(s) && OneThread(s.rows) && IndexOf(idx, s.rows) && m in s.rows && IsResult(m)
    ensures !Broken(idx, m, m.content[0])
  {
    var k := Key(m.thread, m.content[0].callID);
    var x := CallRow(s.rows, m);
    assert x.thread == m.thread && x.content[0] in x.content;
    assert m.content[0].callID in CallIds(s.rows) by {
      ResultIdsHold(s.rows, m.content[0].callID);
      var i :| 0 <= i < |s.rows| && s.rows[i] == m;
    }
    assert Calls(x, k);
    forall a, b | a in s.rows && b in s.rows && Calls(a, k) && Calls(b, k) ensures a == b {
      CallersAreOne(s, a, b, k);
    }
  }

  lemma CallRow(rows: seq<Message>, m: Message) returns (x: Message)
    requires CallIds(rows) == ResultIds(rows) && m in rows && IsResult(m)
    ensures x in rows && IsCall(x) && x.content[0].id == m.content[0].callID
  {
    var i :| 0 <= i < |rows| && rows[i] == m;
    CallIdsHold(rows, m.content[0].callID);
    ResultIdsHold(rows, m.content[0].callID);
    var j :| 0 <= j < |rows| && IsCall(rows[j]) && rows[j].content[0].id == m.content[0].callID;
    x := rows[j];
  }

  lemma RowIsWhole(s: State, idx: Index, m: Message)
    requires InPairs(s) && OneThread(s.rows) && IndexOf(idx, s.rows) && m in s.rows
    ensures Whole(idx, m)
  {
    if IsCall(m) {
      CallIsAnswered(s, idx, m);
    } else if IsResult(m) {
      ResultIsCalled(s, idx, m);
    }
  }

  /** Over the rows of a turn, at any step, closure never fails: nothing a row needs is broken. */
  lemma TurnRowsClose(s: State, idx: Index, root: Message, at: Message, b: Block)
    requires InPairs(s) && OneThread(s.rows) && IndexOf(idx, s.rows) && root in s.rows
    requires Needs(idx, root, at) && b in at.content
    ensures !Broken(idx, at, b)
  {
    forall m | m in Held(s.rows) ensures Whole(idx, m) && forall x :: Linked(idx, m, x) ==> x in Held(s.rows) {
      RowIsWhole(s, idx, m);
    }
    assert ClosedSet(idx, Held(s.rows));
    ClosedHoldsNeeds(idx, Held(s.rows), root, at);
    assert Whole(idx, at);
  }

  /** Any stream, stopped anywhere, leaves rows whose closure never fails. */
  lemma EveryRunCloses(src: Source, base: nat, events: seq<Event>, idx: Index, root: Message, at: Message, b: Block)
    requires var s := TakeEvents(src, Fresh(base), events).0;
             && IndexOf(idx, s.rows) && root in s.rows && Needs(idx, root, at) && b in at.content
    ensures !Broken(idx, at, b)
  {
    var s := TakeEvents(src, Fresh(base), events).0;
    TakeEventsKeeps(src, Fresh(base), events);
    TakeEventsStamps(src, base, Fresh(base), events);
    TurnRowsClose(s, idx, root, at, b);
  }

  /** So does the whole turn, whatever the stream and whichever writes fail; its rows carry unique
      ids and positions, every result comes later than its call, and error placeholders stand
      exactly where no real result was stored. */
  lemma WholeTurnCloses(src: Source, base: nat, events: seq<Event>, writes: nat -> bool, finalOk: bool, idx: Index)
    requires Injective(src)
    requires IndexOf(idx, RunTurn(src, Fresh(base), events, writes, finalOk).rows)
    ensures var s := RunTurn(src, Fresh(base), events, writes, finalOk);
            && Closing(s) && UniqueIds(s.rows) && UniquePositions(s.rows) && ResultsComeLater(s.rows)
            && forall root, at, b :: root in s.rows && Needs(idx, root, at) && b in at.content ==> !Broken(idx, at, b)
  {
    var s := RunTurn(src, Fresh(base), events, writes, finalOk);
    RunTurnKeeps(src, Fresh(base), events, writes, finalOk);
    RunTurnStamps(src, base, events, writes, finalOk);
    StampedIsUnique(src, base, s);
    StackedIsLater(s.rows);
    forall root, at, b | root in s.rows && Needs(idx, root, at) && b in at.content ensures !Broken(idx, at, b) {
      TurnRowsClose(s, idx, root, at, b);
    }
  }

  lemma RunTurnStamps(src: Source, base: nat, events: seq<Event>, writes: nat -> bool, finalOk: bool)
    ensures Stamped(src, base, RunTurn(src, Fresh(base), events, writes, finalOk))
  {
    TakeEventsStamps(src, base, Fresh(base), events);
    var s := TakeEvents(src, Fresh(base), events).0;
    FlushStamps(src, base, s, writes, |s.order|);
    FinishStamps(src, base, Flush(src, s, writes, |s.order|), finalOk);
  }
}
