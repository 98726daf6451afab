/** What a turn stores, said of the parts its stream delivered and not of the steps that took them
    (service/agent/runner.go, processEvents). */
module TurnStory {
  import opened Messages
  import opened Turn

  // ----- The stream -----

  /** All parts of the stream, in order, each with what the world answered to it. */
  ghost function AllParts(events: seq<Event>): seq<(Part, World)> {
    if events == [] then []
    else
      var e := events[|events| - 1];
      AllParts(events[..|events| - 1]) + (if e.Content? then e.parts else [])
  }

  /** The last error of the stream that is not a cancellation. */
  ghost function LastError(events: seq<Event>): Maybe<string> {
    if events == [] then None
    else
      var e := events[|events| - 1];
      if e.StreamError? && !e.canceled then Some(e.message) else LastError(events[..|events| - 1])
  }

  /** Some part calls a tool without naming the call. */
  ghost predicate HasEmptyCall(parts: seq<(Part, World)>) {
    exists i :: 0 <= i < |parts| && parts[i].0.call.Some? && parts[i].0.call.value.id == ""
  }

  // ----- What the parts ask for -----

  ghost function CallOf(p: Part): set<string> {
    if p.call.Some? then {p.call.value.id} else {}
  }

  /** The calls met so far. */
  ghost function Called(parts: seq<(Part, World)>): set<string> {
    if parts == [] then {} else Called(parts[..|parts| - 1]) + CallOf(parts[|parts| - 1].0)
  }

  /** The part repeats a call met before it. */
  ghost predicate Repeats(front: seq<(Part, World)>, p: Part) {
    p.call.Some? && p.call.value.id in Called(front)
  }

  /** The part's response is stored: it comes in a turn not cancelled, answers a call met and not
      answered yet, and its write succeeds. */
  ghost predicate Answers(front: seq<(Part, World)>, p: Part, w: World)
    decreases |front|, 1
  {
    && p.response.Some? && !Repeats(front, p) && !w.canceled && w.pairOk
    && p.response.value.id in Called(front) + CallOf(p)
    && p.response.value.id !in Answered(front)
  }

  /** The calls answered so far. */
  ghost function Answered(parts: seq<(Part, World)>): set<string>
    decreases |parts|, 0
  {
    if parts == [] then {}
    else
      var front, (p, w) := parts[..|parts| - 1], parts[|parts| - 1];
      Answered(front) + (if Answers(front, p, w) then {p.response.value.id} else {})
  }

  /** The part is passed over: a repeated call, or a response that is not stored. */
  ghost predicate Skipped(front: seq<(Part, World)>, p: Part, w: World) {
    Repeats(front, p) || (p.response.Some? && !Answers(front, p, w))
  }

  /** The text of the parts that are neither thoughts nor calls and are not passed over. */
  ghost function Said(parts: seq<(Part, World)>): string {
    if parts == [] then ""
    else
      var front, (p, w) := parts[..|parts| - 1], parts[|parts| - 1];
      Said(front) + (if !Skipped(front, p, w) && p.call.None? && !p.thought then p.text else "")
  }

  /** The text of the thoughts that are not passed over. */
  ghost function Thought(parts: seq<(Part, World)>): string {
    if parts == [] then ""
    else
      var front, (p, w) := parts[..|parts| - 1], parts[|parts| - 1];
      Thought(front) + (if !Skipped(front, p, w) && p.call.None? && p.thought then p.text else "")
  }

  /** The first part that makes the call `id`, as a block. */
  ghost function FirstCall(parts: seq<(Part, World)>, id: string): Block
    requires id in Called(parts)
  {
    var front, p := parts[..|parts| - 1], parts[|parts| - 1].0;
    if id in Called(front) then FirstCall(front, id)
    else ToolCall(id, p.call.value.name, p.call.value.arguments)
  }

  /** The thoughts received before the call `id`. */
  ghost function ThoughtBefore(parts: seq<(Part, World)>, id: string): string
    requires id in Called(parts)
  {
    var front := parts[..|parts| - 1];
    if id in Called(front) then ThoughtBefore(front, id) else Thought(front)
  }

  /** Calls in order of appearance, each once. */
  ghost function CallOrder(parts: seq<(Part, World)>): seq<string> {
    if parts == [] then []
    else
      var front, p := parts[..|parts| - 1], parts[|parts| - 1].0;
      CallOrder(front) + (if p.call.Some? && !Repeats(front, p) then [p.call.value.id] else [])
  }

  /** What the stream stores of calls and results: each answered call with its answer, in order of
      the answers. */
  ghost function Exchanges(parts: seq<(Part, World)>): seq<Block> {
    if parts == [] then []
    else
      var front, (p, w) := parts[..|parts| - 1], parts[|parts| - 1];
      Exchanges(front) +
      (if Answers(front, p, w) then
         AnsweredIsCalled(parts, p.response.value.id);
         [FirstCall(parts, p.response.value.id), ToolResult(p.response.value.id, p.response.value.output, false)]
       else [])
  }

  lemma AnsweredIsCalled(parts: seq<(Part, World)>, id: string)
    requires parts != [] && id in Called(parts[..|parts| - 1]) + CallOf(parts[|parts| - 1].0)
    ensures id in Called(parts)
  {
  }

  /** What closes the first `n` calls of `order`: for each one not answered whose write succeeds, the
      call and an error that quotes the last stream error. */
  ghost function Closures(parts: seq<(Part, World)>, order: seq<string>, failure: Maybe<string>, writes: nat -> bool,
                          n: nat): seq<Block>
    requires n <= |order| && forall c :: c in order ==> c in Called(parts)
  {
    if n == 0 then []
    else
      var c := order[n - 1];
      Closures(parts, order, failure, writes, n - 1) +
      (if c in Answered(parts) || !writes(n - 1) then []
       else
         [FirstCall(parts, c),
          ToolResult(c, if failure.Some? then "Tool execution failed: " + failure.value
                        else "Tool execution ended without a result.", true)])
  }

  // ----- What the rows hold -----

  /** The calls and results among the rows, in order. */
  ghost function ToolBlocks(rows: seq<Message>): seq<Block> {
    if rows == [] then []
    else
      var m := rows[|rows| - 1];
      ToolBlocks(rows[..|rows| - 1]) +
      (if |m.content| == 1 && (m.content[0].ToolCall? || m.content[0].ToolResult?) then m.content else [])
  }

  ghost function ThinkingIn(content: seq<Block>): string {
    if content == [] then ""
    else
      var b := content[|content| - 1];
      ThinkingIn(content[..|content| - 1]) + (if b.Thinking? then b.text else "")
  }

  /** The thinking among the rows, in order. */
  ghost function ThinkingText(rows: seq<Message>): string {
    if rows == [] then "" else ThinkingText(rows[..|rows| - 1]) + ThinkingIn(rows[|rows| - 1].content)
  }

  // ----- Following the stream -----

  /** The books say what the parts say. */
  ghost predicate Follows(parts: seq<(Part, World)>, s: State) {
    && s.seenCalls == Called(parts) && s.seenResults == Answered(parts) && s.order == CallOrder(parts)
    && s.pending.Keys == Called(parts) - Answered(parts)
    && (forall c {:trigger s.pending[c]} :: c in s.pending ==> s.pending[c].content == [FirstCall(parts, c)])
    && s.text == Said(parts)
    && ToolBlocks(s.rows) == Exchanges(parts)
  }

  lemma ToolBlocksGrow(rows: seq<Message>, m: Message)
    ensures ToolBlocks(rows + [m]) == ToolBlocks(rows) +
            (if |m.content| == 1 && (m.content[0].ToolCall? || m.content[0].ToolResult?) then m.content else [])
  {
    assert (rows + [m])[..|rows|] == rows;
  }

  lemma ThinkingStored(src: Source, s: State, ok: bool)
    ensures var s' := StoreThinking(src, s, ok);
            ToolBlocks(s'.rows) == ToolBlocks(s.rows) && s' == s.(rows := s'.rows, msgSeq := s'.msgSeq, thinking := "")
  {
    if s.thinking != "" {
      ToolBlocksGrow(s.rows, Minted(src, s, [Thinking(s.thinking)]));
      assert ToolBlocks(s.rows) + [] == ToolBlocks(s.rows);
    }
  }

  /** What a new part changes about the calls. */
  lemma CallMet(front: seq<(Part, World)>, p: Part, w: World)
    ensures var parts := front + [(p, w)];
            && parts[..|front|] == front && parts[|front|] == (p, w)
            && Called(parts) == Called(front) + CallOf(p)
            && CallOrder(parts) == CallOrder(front) +
                (if p.call.Some? && !Repeats(front, p) then [p.call.value.id] else [])
            && Answered(parts) == Answered(front) + (if Answers(front, p, w) then {p.response.value.id} else {})
            && Said(parts) == Said(front) + (if !Skipped(front, p, w) && p.call.None? && !p.thought then p.text else "")
            && (forall c :: c in Called(front) ==> FirstCall(parts, c) == FirstCall(front, c))
  {
    var parts := front + [(p, w)];
    assert parts[..|parts| - 1] == front;
  }

  lemma {:induction false} AnsweredAreCalled(parts: seq<(Part, World)>)
    ensures Answered(parts) <= Called(parts)
  {
    if parts != [] { AnsweredAreCalled(parts[..|parts| - 1]); }
  }

  lemma ExchangesGrow(front: seq<(Part, World)>, p: Part, w: World)
    ensures var parts := front + [(p, w)];
            && (Answers(front, p, w) ==>
                  && p.response.value.id in Called(parts)
                  && Exchanges(parts) == Exchanges(front) +
                     [FirstCall(parts, p.response.value.id),
                      ToolResult(p.response.value.id, p.response.value.output, false)])
            && (!Answers(front, p, w) ==> Exchanges(parts) == Exchanges(front))
  {
    var parts := front + [(p, w)];
    CallMet(front, p, w);
    assert parts[..|parts| - 1] == front && parts[|parts| - 1] == (p, w);
    assert Exchanges(front) + [] == Exchanges(front);
  }

  /** The books once the call of `p`, if it has a new one, is buffered. */
  ghost predicate Midway(front: seq<(Part, World)>, p: Part, w: World, s: State) {
    var parts := front + [(p, w)];
    && s.seenCalls == Called(parts) && s.seenResults == Answered(front) && s.order == CallOrder(parts)
    && s.pending.Keys == Called(parts) - Answered(front)
    && (forall c {:trigger s.pending[c]} :: c in s.pending ==> s.pending[c].content == [FirstCall(parts, c)])
    && s.text == Said(front)
    && ToolBlocks(s.rows) == Exchanges(front)
  }

  lemma CallFollows(src: Source, front: seq<(Part, World)>, s: State, p: Part, w: World)
    requires Follows(front, s) && !Repeats(front, p)
    ensures Midway(front, p, w, if p.call.Some? then BufferCall(src, s, p.call.value, w.flushOk) else s)
  {
    CallMet(front, p, w);
    if p.call.Some? {
      ThinkingStored(src, s, w.flushOk);
      AnsweredAreCalled(front);
      BufferedFollows(src, front, StoreThinking(src, s, w.flushOk), p, w);
    } else {
      assert CallOrder(front) + [] == CallOrder(front);
    }
  }

  lemma BufferedFollows(src: Source, front: seq<(Part, World)>, s: State, p: Part, w: World)
    requires Follows(front, s) && p.call.Some? && !Repeats(front, p) && Answered(front) <= Called(front)
    ensures Midway(front, p, w, Buffered(src, s, p.call.value))
  {
    var parts, fc := front + [(p, w)], p.call.value;
    CallMet(front, p, w);
    assert parts[..|parts| - 1] == front && FirstCall(parts, fc.id) == ToolCall(fc.id, fc.name, fc.arguments);
    var pending := Buffered(src, s, fc).pending;
    forall c | c in pending ensures pending[c].content == [FirstCall(parts, c)] {
      if c != fc.id { assert s.pending[c].content == [FirstCall(front, c)]; }
    }
  }

  /** The books once the response of `p` is dealt with. */
  ghost predicate Responded(front: seq<(Part, World)>, p: Part, w: World, s: State) {
    var parts := front + [(p, w)];
    && s.seenCalls == Called(parts) && s.seenResults == Answered(parts) && s.order == CallOrder(parts)
    && s.pending.Keys == Called(parts) - Answered(parts)
    && (forall c {:trigger s.pending[c]} :: c in s.pending ==> s.pending[c].content == [FirstCall(parts, c)])
    && s.text == Said(front)
    && ToolBlocks(s.rows) == Exchanges(parts)
  }

  lemma ResponseFollows(src: Source, front: seq<(Part, World)>, s: State, p: Part, w: World)
    requires Midway(front, p, w, s) && !Repeats(front, p)
    ensures p.response.Some? ==> (Stored(s, p.response.value, w) <==> Answers(front, p, w))
    ensures Responded(front, p, w, if p.response.Some? then TakeResponse(src, s, p.response.value, w) else s)
  {
    if p.response.Some? { StoredIsAnswer(front, s, p, w); }
    if Answers(front, p, w) {
      PairFollows(src, front, s, p, w);
      CallMet(front, p, w);
    } else {
      DroppedFollows(front, s, p, w);
    }
  }

  lemma StoredIsAnswer(front: seq<(Part, World)>, s: State, p: Part, w: World)
    requires Midway(front, p, w, s) && !Repeats(front, p) && p.response.Some?
    ensures Stored(s, p.response.value, w) <==> Answers(front, p, w)
  {
    CallMet(front, p, w);
  }

  /** A response that is not stored leaves the books alone, but for the number it may use up. */
  lemma DroppedFollows(front: seq<(Part, World)>, s: State, p: Part, w: World)
    requires Midway(front, p, w, s) && !Answers(front, p, w)
    ensures Responded(front, p, w, s) && Responded(front, p, w, s.(msgSeq := s.msgSeq + 1))
  {
    CallMet(front, p, w);
    ExchangesGrow(front, p, w);
  }

  lemma PairFollows(src: Source, front: seq<(Part, World)>, s: State, p: Part, w: World)
    requires Midway(front, p, w, s) && Answers(front, p, w)
    ensures p.response.value.id in s.pending
    ensures var fr := p.response.value;
            var s' := WritePair(src, s, fr.id, fr.output, false);
            && ToolBlocks(s'.rows) == Exchanges(front + [(p, w)])
            && s'.pending.Keys == Called(front + [(p, w)]) - Answered(front + [(p, w)])
  {
    var parts, fr := front + [(p, w)], p.response.value;
    CallMet(front, p, w);
    ExchangesGrow(front, p, w);
    PairStored(src, s, fr.id, fr.output, false);
    assert s.pending[fr.id].content == [FirstCall(parts, fr.id)];
    FirstCallIsCall(parts, fr.id);
    var a, b := [FirstCall(parts, fr.id)], [ToolResult(fr.id, fr.output, false)];
    assert a + b == [FirstCall(parts, fr.id), ToolResult(fr.id, fr.output, false)];
  }

  lemma {:induction false} FirstCallIsCall(parts: seq<(Part, World)>, id: string)
    requires id in Called(parts)
    ensures FirstCall(parts, id).ToolCall? && FirstCall(parts, id).id == id
  {
    var front := parts[..|parts| - 1];
    if id in Called(front) { FirstCallIsCall(front, id); }
  }

  lemma PairStored(src: Source, s: State, id: string, content: string, isError: bool)
    requires id in s.pending && |s.pending[id].content| == 1
    ensures var s' := WritePair(src, s, id, content, isError);
            s.pending[id].content[0].ToolCall? ==>
              ToolBlocks(s'.rows) == ToolBlocks(s.rows) + (s.pending[id].content + [ToolResult(id, content, isError)])
  {
    var call, result := s.pending[id], Minted(src, s, [ToolResult(id, content, isError)]);
    ToolBlocksGrow(s.rows, call);
    ToolBlocksGrow(s.rows + [call], result);
    assert s.rows + [call, result] == s.rows + [call] + [result];
  }

  lemma TextTaken(src: Source, s: State, p: Part, ok: bool)
    ensures var s' := TakeText(src, s, p, ok);
            && s' == s.(rows := s'.rows, msgSeq := s'.msgSeq, thinking := s'.thinking, text := s'.text)
            && ToolBlocks(s'.rows) == ToolBlocks(s.rows)
            && s'.text == s.text + (if p.call.None? && !p.thought then p.text else "")
  {
    ThinkingStored(src, s.(thinking := s.thinking + p.text), ok);
    assert s.text + "" == s.text;
  }

  /** Taking one more part keeps the books in step with the parts. */
  lemma PartFollows(src: Source, front: seq<(Part, World)>, s: State, p: Part, w: World)
    requires Follows(front, s) && !Refused(p)
    ensures Follows(front + [(p, w)], TakePart(src, s, p, w))
  {
    var parts := front + [(p, w)];
    CallMet(front, p, w);
    if Repeats(front, p) {
      ExchangesGrow(front, p, w);
      assert Said(front) + "" == Said(front) && CallOrder(front) + [] == CallOrder(front);
    } else {
      var s1 := if p.call.Some? then BufferCall(src, s, p.call.value, w.flushOk) else s;
      CallFollows(src, front, s, p, w);
      ResponseFollows(src, front, s1, p, w);
      var s2 := if p.response.Some? then TakeResponse(src, s1, p.response.value, w) else s1;
      TextTaken(src, s2, p, w.signedOk);
      assert Said(front) + "" == Said(front);
    }
  }

  // ----- Whole streams -----

  lemma {:induction false} PartsFollow(src: Source, front: seq<(Part, World)>, s: State, parts: seq<(Part, World)>)
    requires Follows(front, s)
    ensures TakeParts(src, s, parts).1 <==> HasEmptyCall(parts)
    ensures !HasEmptyCall(parts) ==> Follows(front + parts, TakeParts(src, s, parts).0)
  {
    if parts == [] {
      assert front + [] == front;
    } else {
      var before, last := parts[..|parts| - 1], parts[|parts| - 1];
      PartsFollow(src, front, s, before);
      EmptyCallSnoc(before, last);
      assert parts == before + [last];
      if !HasEmptyCall(parts) {
        PartFollows(src, front + before, TakeParts(src, s, before).0, last.0, last.1);
        assert front + parts == (front + before) + [last];
      }
    }
  }

  lemma EmptyCallSnoc(before: seq<(Part, World)>, last: (Part, World))
    ensures HasEmptyCall(before + [last]) <==> HasEmptyCall(before) || Refused(last.0)
  {
    var parts := before + [last];
    assert parts[|before|] == last && forall i :: 0 <= i < |before| ==> parts[i] == before[i];
  }

  lemma EmptyCallAppends(a: seq<(Part, World)>, b: seq<(Part, World)>)
    ensures HasEmptyCall(a + b) <==> HasEmptyCall(a) || HasEmptyCall(b)
  {
    forall i | 0 <= i < |b| ensures (a + b)[|a| + i] == b[i] { }
    assert forall i :: 0 <= i < |a| ==> (a + b)[i] == a[i];
    if i :| 0 <= i < |b| && b[i].0.call.Some? && b[i].0.call.value.id == "" { assert (a + b)[|a| + i] == b[i]; }
  }

  /** A fresh turn that takes a stream is refused exactly at a call without an id, and otherwise
      follows the stream's parts and remembers its last error. */
  lemma {:induction false} StreamFollows(src: Source, base: nat, events: seq<Event>)
    ensures TakeEvents(src, Fresh(base), events).1 <==> HasEmptyCall(AllParts(events))
    ensures !HasEmptyCall(AllParts(events)) ==>
              Follows(AllParts(events), TakeEvents(src, Fresh(base), events).0) &&
              TakeEvents(src, Fresh(base), events).0.failure == LastError(events)
  {
    if events != [] {
      var before, e := events[..|events| - 1], events[|events| - 1];
      StreamFollows(src, base, before);
      var s := TakeEvents(src, Fresh(base), before).0;
      if e.Content? {
        EmptyCallAppends(AllParts(before), e.parts);
        if !HasEmptyCall(AllParts(before)) {
          PartsFollow(src, AllParts(before), s, e.parts);
          PartsKeepFailure(src, s, e.parts);
        }
      } else {
        assert AllParts(before) + [] == AllParts(before);
      }
    }
  }

  lemma {:induction false} PartsKeepFailure(src: Source, s: State, parts: seq<(Part, World)>)
    ensures TakeParts(src, s, parts).0.failure == s.failure
  {
    if parts != [] { PartsKeepFailure(src, s, parts[..|parts| - 1]); }
  }

  // ----- The end of the turn -----

  /** Buffered are still the calls not visited yet and those whose write failed. */
  ghost predicate StillOpen(s: State, writes: nat -> bool, n: nat, f: State) {
    && (forall c :: c in f.pending ==> c in s.pending && f.pending[c] == s.pending[c])
    && (forall i :: 0 <= i < |s.order| ==>
          (s.order[i] in f.pending <==> s.order[i] in s.pending && (i < n ==> !writes(i))))
  }

  lemma OpenNext(src: Source, s: State, writes: nat -> bool, n: nat, f: State)
    requires 0 < n <= |s.order| && StillOpen(s, writes, n - 1, f)
    requires forall i, j :: 0 <= i < j < |s.order| ==> s.order[i] != s.order[j]
    ensures StillOpen(s, writes, n, FlushOne(src, f, s.order[n - 1], writes(n - 1)))
  {
    var f', c := FlushOne(src, f, s.order[n - 1], writes(n - 1)), s.order[n - 1];
    assert f'.pending == if writes(n - 1) then f.pending - {c} else f.pending;
    forall i | 0 <= i < |s.order|
      ensures s.order[i] in f'.pending <==> s.order[i] in s.pending && (i < n ==> !writes(i))
    {
      assert i != n - 1 ==> s.order[i] != c;
    }
  }

  /** The flush over the first `n` calls: the books after it, against the stream's parts. */
  ghost predicate Closes(parts: seq<(Part, World)>, s: State, writes: nat -> bool, n: nat, f: State)
    requires n <= |s.order| && forall c :: c in s.order ==> c in Called(parts)
  {
    && f.order == s.order && f.failure == s.failure && f.text == s.text && f.thinking == s.thinking
    && StillOpen(s, writes, n, f)
    && ToolBlocks(f.rows) == ToolBlocks(s.rows) + Closures(parts, s.order, s.failure, writes, n)
  }

  lemma {:induction false} OrderIsCalled(parts: seq<(Part, World)>)
    ensures forall c :: c in CallOrder(parts) <==> c in Called(parts)
    ensures forall i, j :: 0 <= i < j < |CallOrder(parts)| ==> CallOrder(parts)[i] != CallOrder(parts)[j]
  {
    if parts != [] {
      var front, p := parts[..|parts| - 1], parts[|parts| - 1].0;
      OrderIsCalled(front);
      assert parts == front + [parts[|parts| - 1]];
    }
  }

  lemma {:induction false} FlushCloses(src: Source, parts: seq<(Part, World)>, s: State, writes: nat -> bool, n: nat)
    requires Follows(parts, s) && n <= |s.order|
    ensures forall c :: c in s.order ==> c in Called(parts)
    ensures Closes(parts, s, writes, n, Flush(src, s, writes, n))
  {
    OrderIsCalled(parts);
    if n == 0 {
      assert ToolBlocks(s.rows) + [] == ToolBlocks(s.rows);
    } else {
      FlushCloses(src, parts, s, writes, n - 1);
      CloseNext(src, parts, s, writes, n, Flush(src, s, writes, n - 1));
    }
  }

  lemma CloseNext(src: Source, parts: seq<(Part, World)>, s: State, writes: nat -> bool, n: nat, f: State)
    requires Follows(parts, s) && 0 < n <= |s.order| && forall c :: c in s.order ==> c in Called(parts)
    requires forall i, j :: 0 <= i < j < |s.order| ==> s.order[i] != s.order[j]
    requires Closes(parts, s, writes, n - 1, f)
    ensures Closes(parts, s, writes, n, FlushOne(src, f, s.order[n - 1], writes(n - 1)))
  {
    OpenNext(src, s, writes, n, f);
    var c := s.order[n - 1];
    var before := Closures(parts, s.order, s.failure, writes, n - 1);
    if c in f.pending && writes(n - 1) {
      assert s.pending[c].content == [FirstCall(parts, c)];
      CloseOne(src, parts, f, c);
      Associates(ToolBlocks(s.rows), before, [FirstCall(parts, c), ToolResult(c, Placeholder(f.failure), true)]);
    } else {
      assert before + [] == before;
    }
  }

  lemma Associates<T>(a: seq<T>, b: seq<T>, c: seq<T>)
    ensures (a + b) + c == a + (b + c)
  {
  }

  lemma CloseOne(src: Source, parts: seq<(Part, World)>, f: State, c: string)
    requires c in f.pending && c in Called(parts) && f.pending[c].content == [FirstCall(parts, c)]
    ensures ToolBlocks(WritePair(src, f, c, Placeholder(f.failure), true).rows) ==
            ToolBlocks(f.rows) + [FirstCall(parts, c), ToolResult(c, Placeholder(f.failure), true)]
  {
    FirstCallIsCall(parts, c);
    PairStored(src, f, c, Placeholder(f.failure), true);
    var a, b := [FirstCall(parts, c)], [ToolResult(c, Placeholder(f.failure), true)];
    assert a + b == [FirstCall(parts, c), ToolResult(c, Placeholder(f.failure), true)];
  }

  /** What the rows of a whole turn hold of calls and results, said of its stream. */
  ghost predicate Told(events: seq<Event>, writes: nat -> bool, rows: seq<Message>) {
    var parts := AllParts(events);
    OrderIsCalled(parts);
    ToolBlocks(rows) == Exchanges(parts) +
        Closures(parts, CallOrder(parts), LastError(events), writes, |CallOrder(parts)|)
  }

  /** A turn that is not refused stores exactly the exchanges of its stream and then the closures of
      what stayed open; its text is what the stream said. */
  lemma TurnIsTold(src: Source, base: nat, events: seq<Event>, writes: nat -> bool, finalOk: bool)
    requires !HasEmptyCall(AllParts(events))
    ensures Told(events, writes, RunTurn(src, Fresh(base), events, writes, finalOk).rows)
    ensures var s := TakeEvents(src, Fresh(base), events).0;
            var f := Flush(src, s, writes, |s.order|);
            && f.text == Said(AllParts(events)) && f.failure == LastError(events)
            && (f.pending != map[] <==> LeftOpen(AllParts(events), writes))
  {
    var parts, s := AllParts(events), TakeEvents(src, Fresh(base), events).0;
    StreamFollows(src, base, events);
    FlushCloses(src, parts, s, writes, |s.order|);
    var f := Flush(src, s, writes, |s.order|);
    FinishAddsNoTools(src, f, finalOk);
    OpenIsPending(parts, s, writes, f);
  }

  /** Some call was not answered, and its closing write fails. */
  ghost predicate LeftOpen(parts: seq<(Part, World)>, writes: nat -> bool) {
    exists i {:trigger CallOrder(parts)[i]} :: 0 <= i < |CallOrder(parts)| &&
                                               CallOrder(parts)[i] !in Answered(parts) && !writes(i)
  }

  lemma OpenIsPending(parts: seq<(Part, World)>, s: State, writes: nat -> bool, f: State)
    requires Follows(parts, s) && (forall c :: c in s.order ==> c in Called(parts))
    requires Closes(parts, s, writes, |s.order|, f)
    ensures f.pending != map[] <==> LeftOpen(parts, writes)
  {
    OrderIsCalled(parts);
    if f.pending != map[] {
      var c :| c in f.pending;
      var i :| 0 <= i < |s.order| && s.order[i] == c;
    }
    if LeftOpen(parts, writes) {
      var i :| 0 <= i < |CallOrder(parts)| && CallOrder(parts)[i] !in Answered(parts) && !writes(i);
      assert s.order[i] in s.pending && s.order[i] in f.pending;
    }
  }

  lemma FinishAddsNoTools(src: Source, s: State, ok: bool)
    ensures ToolBlocks(Finish(src, s, ok).rows) == ToolBlocks(s.rows)
  {
    ToolBlocksGrow(s.rows, Minted(src, s, FinalContent(s)));
    assert ToolBlocks(s.rows) + [] == ToolBlocks(s.rows);
  }

  // ----- Thinking -----

  /** Every thinking flush of the stream succeeds. */
  ghost predicate AllFlushed(parts: seq<(Part, World)>) {
    forall i :: 0 <= i < |parts| ==> parts[i].1.flushOk && parts[i].1.signedOk
  }

  /** What was thought before a call stands before it. */
  ghost predicate ThinkingLeads(parts: seq<(Part, World)>, rows: seq<Message>) {
    forall j {:trigger rows[j]} :: 0 <= j < |rows| && |rows[j].content| == 1 && rows[j].content[0].ToolCall? ==>
      rows[j].content[0].id in Called(parts) &&
      ThoughtBefore(parts, rows[j].content[0].id) <= ThinkingText(rows[..j])
  }

  /** No thought is lost or out of place: what was thought is stored, or waits to be. */
  ghost predicate Heard(parts: seq<(Part, World)>, s: State) {
    && Thought(parts) == ThinkingText(s.rows) + s.thinking
    && (forall c {:trigger s.pending[c]} :: c in s.pending ==>
          c in Called(parts) && ThoughtBefore(parts, c) <= ThinkingText(s.rows))
    && ThinkingLeads(parts, s.rows)
  }

  lemma ThinkingGrows(rows: seq<Message>, m: Message)
    ensures ThinkingText(rows + [m]) == ThinkingText(rows) + ThinkingIn(m.content)
  {
    assert (rows + [m])[..|rows|] == rows;
  }

  lemma LoneThinking(b: Block)
    ensures ThinkingIn([b]) == if b.Thinking? then b.text else ""
  {
    assert [b][..0] == [] && ThinkingIn([]) == "";
    assert b.Thinking? ==> "" + b.text == b.text;
  }

  /** Storing one more row that calls nothing keeps the order. */
  lemma LeadsMore(parts: seq<(Part, World)>, rows: seq<Message>, m: Message)
    requires ThinkingLeads(parts, rows)
    requires |m.content| == 1 && m.content[0].ToolCall? ==>
               m.content[0].id in Called(parts) && ThoughtBefore(parts, m.content[0].id) <= ThinkingText(rows)
    ensures ThinkingLeads(parts, rows + [m])
  {
    var more := rows + [m];
    forall j | 0 <= j < |more| ensures more[..j] == rows[..j] { }
    assert more[..|rows|] == rows && rows[..|rows|] == rows;
    assert forall j :: 0 <= j < |rows| ==> more[j] == rows[j];
  }

  lemma ThoughtGrows(front: seq<(Part, World)>, p: Part, w: World)
    ensures var parts := front + [(p, w)];
            && Thought(parts) == Thought(front) +
                (if !Skipped(front, p, w) && p.call.None? && p.thought then p.text else "")
            && Called(parts) == Called(front) + CallOf(p)
            && (forall c :: c in Called(front) ==> ThoughtBefore(parts, c) == ThoughtBefore(front, c))
            && (p.call.Some? && !Repeats(front, p) ==> ThoughtBefore(parts, p.call.value.id) == Thought(front))
  {
    var parts := front + [(p, w)];
    assert parts[..|parts| - 1] == front;
  }

  /** Meeting the part changes nothing about what was said of the parts before it. */
  lemma LeadsOn(front: seq<(Part, World)>, p: Part, w: World, rows: seq<Message>)
    requires ThinkingLeads(front, rows)
    ensures ThinkingLeads(front + [(p, w)], rows)
  {
    ThoughtGrows(front, p, w);
  }

  lemma FlushedIsHeard(src: Source, parts: seq<(Part, World)>, s: State)
    requires ThinkingLeads(parts, s.rows)
    ensures var s' := StoreThinking(src, s, true);
            && ThinkingText(s'.rows) == ThinkingText(s.rows) + s.thinking && s'.thinking == ""
            && ThinkingLeads(parts, s'.rows) && s'.pending == s.pending && s'.seenResults == s.seenResults
  {
    assert ThinkingText(s.rows) + "" == ThinkingText(s.rows);
    if s.thinking != "" {
      var m := Minted(src, s, [Thinking(s.thinking)]);
      ThinkingGrows(s.rows, m);
      LoneThinking(Thinking(s.thinking));
      LeadsMore(parts, s.rows, m);
    }
  }

  /** The books before the text of a part is taken. */
  ghost predicate HeardSoFar(front: seq<(Part, World)>, p: Part, w: World, s: State) {
    var parts := front + [(p, w)];
    && Thought(front) == ThinkingText(s.rows) + s.thinking
    && (forall c {:trigger s.pending[c]} :: c in s.pending ==>
          c in Called(parts) && ThoughtBefore(parts, c) <= ThinkingText(s.rows))
    && ThinkingLeads(parts, s.rows)
  }

  lemma CallHeard(src: Source, front: seq<(Part, World)>, s: State, p: Part, w: World)
    requires Follows(front, s) && Heard(front, s) && !Repeats(front, p) && w.flushOk
    ensures HeardSoFar(front, p, w, if p.call.Some? then BufferCall(src, s, p.call.value, w.flushOk) else s)
  {
    ThoughtGrows(front, p, w);
    LeadsOn(front, p, w, s.rows);
    if p.call.Some? {
      FlushedIsHeard(src, front + [(p, w)], s);
      BufferedHeard(src, front, s, StoreThinking(src, s, true), p, w);
    }
  }

  lemma BufferedHeard(src: Source, front: seq<(Part, World)>, s0: State, s: State, p: Part, w: World)
    requires p.call.Some? && !Repeats(front, p) && s.pending == s0.pending && s.thinking == ""
    requires Thought(front) == ThinkingText(s0.rows) + s0.thinking == ThinkingText(s.rows)
    requires forall c {:trigger s.pending[c]} :: c in s.pending ==>
               c in Called(front) && ThoughtBefore(front, c) <= ThinkingText(s0.rows)
    requires ThinkingLeads(front + [(p, w)], s.rows)
    ensures HeardSoFar(front, p, w, Buffered(src, s, p.call.value))
  {
    ThoughtGrows(front, p, w);
    Nothing(Thought(front));
    assert ThinkingText(s0.rows) <= ThinkingText(s.rows);
    var pending := Buffered(src, s, p.call.value).pending;
    forall c | c in pending
      ensures c in Called(front + [(p, w)]) && ThoughtBefore(front + [(p, w)], c) <= ThinkingText(s.rows)
    {
      if c != p.call.value.id { assert s.pending[c] == pending[c]; }
    }
  }

  lemma PairHeard(src: Source, front: seq<(Part, World)>, p: Part, w: World, s: State, id: string, content: string,
                  isError: bool)
    requires HeardSoFar(front, p, w, s) && id in s.pending
    requires |s.pending[id].content| == 1 && s.pending[id].content[0].ToolCall? && s.pending[id].content[0].id == id
    ensures HeardSoFar(front, p, w, WritePair(src, s, id, content, isError))
  {
    PairLeads(src, front + [(p, w)], s, id, content, isError);
  }

  lemma PairLeads(src: Source, parts: seq<(Part, World)>, s: State, id: string, content: string, isError: bool)
    requires ThinkingLeads(parts, s.rows) && id in s.pending && id in Called(parts)
    requires ThoughtBefore(parts, id) <= ThinkingText(s.rows)
    requires |s.pending[id].content| == 1 && s.pending[id].content[0].ToolCall? && s.pending[id].content[0].id == id
    ensures var s' := WritePair(src, s, id, content, isError);
            && ThinkingLeads(parts, s'.rows) && ThinkingText(s'.rows) == ThinkingText(s.rows)
            && s'.thinking == s.thinking && forall c :: c in s'.pending ==>
                    c in s.pending && s'.pending[c] == s.pending[c]
  {
    var call, result := s.pending[id], Minted(src, s, [ToolResult(id, content, isError)]);
    ToolRow(s.rows, call);
    ToolRow(s.rows + [call], result);
    LeadsMore(parts, s.rows, call);
    LeadsMore(parts, s.rows + [call], result);
    assert s.rows + [call, result] == s.rows + [call] + [result];
  }

  lemma ToolRow(rows: seq<Message>, m: Message)
    requires |m.content| == 1 && !m.content[0].Thinking?
    ensures ThinkingText(rows + [m]) == ThinkingText(rows)
  {
    assert m.content == [m.content[0]];
    LoneThinking(m.content[0]);
    ThinkingGrows(rows, m);
    Nothing(ThinkingText(rows));
  }

  lemma TextHeard(src: Source, front: seq<(Part, World)>, s: State, p: Part, w: World)
    requires HeardSoFar(front, p, w, s) && w.signedOk && !Skipped(front, p, w)
    ensures Heard(front + [(p, w)], TakeText(src, s, p, w.signedOk))
  {
    var parts := front + [(p, w)];
    ThoughtGrows(front, p, w);
    Nothing(Thought(front));
    if p.call.None? && p.thought {
      Associates(ThinkingText(s.rows), s.thinking, p.text);
      Nothing(s.thinking);
      ThoughtHeard(src, parts, s.(thinking := s.thinking + p.text), p.signed);
    }
  }

  lemma Nothing(a: string)
    ensures a + "" == a
  {
  }

  /** A thought extended by one part, and stored if the part is signed. */
  lemma ThoughtHeard(src: Source, parts: seq<(Part, World)>, s: State, signed: bool)
    requires Heard(parts, s)
    ensures Heard(parts, if signed then StoreThinking(src, s, true) else s)
  {
    if signed {
      FlushedIsHeard(src, parts, s);
      Nothing(ThinkingText(StoreThinking(src, s, true).rows));
      assert ThinkingText(s.rows) <= ThinkingText(StoreThinking(src, s, true).rows);
    }
  }

  lemma PartHeard(src: Source, front: seq<(Part, World)>, s: State, p: Part, w: World)
    requires Follows(front, s) && Heard(front, s) && !Refused(p) && w.flushOk && w.signedOk
    ensures Heard(front + [(p, w)], TakePart(src, s, p, w))
  {
    ThoughtGrows(front, p, w);
    CallMet(front, p, w);
    assert Thought(front) + "" == Thought(front);
    if Repeats(front, p) {
      LeadsOn(front, p, w, s.rows);
    } else {
      var s1 := if p.call.Some? then BufferCall(src, s, p.call.value, w.flushOk) else s;
      CallHeard(src, front, s, p, w);
      CallFollows(src, front, s, p, w);
      ResponseFollows(src, front, s1, p, w);
      ResponseHeard(src, front, s1, p, w);
      var s2 := if p.response.Some? then TakeResponse(src, s1, p.response.value, w) else s1;
      if !Skipped(front, p, w) { TextHeard(src, front, s2, p, w); }
    }
  }

  lemma ResponseHeard(src: Source, front: seq<(Part, World)>, s: State, p: Part, w: World)
    requires Midway(front, p, w, s) && HeardSoFar(front, p, w, s)
    ensures HeardSoFar(front, p, w, if p.response.Some? then TakeResponse(src, s, p.response.value, w) else s)
  {
    if p.response.Some? && Stored(s, p.response.value, w) {
      var fr := p.response.value;
      assert s.pending[fr.id].content == [FirstCall(front + [(p, w)], fr.id)];
      FirstCallIsCall(front + [(p, w)], fr.id);
      PairHeard(src, front, p, w, s, fr.id, fr.output, false);
    }
  }

  lemma {:induction false} PartsHeard(src: Source, front: seq<(Part, World)>, s: State, parts: seq<(Part, World)>)
    requires Follows(front, s) && Heard(front, s) && !HasEmptyCall(parts) && AllFlushed(parts)
    ensures Heard(front + parts, TakeParts(src, s, parts).0)
  {
    if parts == [] {
      assert front + [] == front;
    } else {
      var before, last := parts[..|parts| - 1], parts[|parts| - 1];
      assert parts == before + [last];
      EmptyCallSnoc(before, last);
      PartsHeard(src, front, s, before);
      PartsFollow(src, front, s, before);
      PartHeard(src, front + before, TakeParts(src, s, before).0, last.0, last.1);
      assert front + parts == (front + before) + [last];
    }
  }

  lemma {:induction false} StreamHeard(src: Source, base: nat, events: seq<Event>)
    requires !HasEmptyCall(AllParts(events)) && AllFlushed(AllParts(events))
    ensures Heard(AllParts(events), TakeEvents(src, Fresh(base), events).0)
  {
    if events == [] {
      assert "" + "" == "";
    } else {
      var before, e := events[..|events| - 1], events[|events| - 1];
      if e.Content? {
        EmptyCallAppends(AllParts(before), e.parts);
        FlushedAppends(AllParts(before), e.parts);
        StreamHeard(src, base, before);
        StreamFollows(src, base, before);
        PartsHeard(src, AllParts(before), TakeEvents(src, Fresh(base), before).0, e.parts);
      } else {
        assert AllParts(before) + [] == AllParts(before);
        StreamHeard(src, base, before);
        StreamFollows(src, base, before);
      }
    }
  }

  lemma FlushedAppends(a: seq<(Part, World)>, b: seq<(Part, World)>)
    requires AllFlushed(a + b)
    ensures AllFlushed(a) && AllFlushed(b)
  {
    assert forall i :: 0 <= i < |a| ==> (a + b)[i] == a[i];
    forall i | 0 <= i < |b| ensures b[i].1.flushOk && b[i].1.signedOk { assert (a + b)[|a| + i] == b[i]; }
  }

  lemma {:induction false} FlushHeard(src: Source, parts: seq<(Part, World)>, s: State, writes: nat -> bool, n: nat)
    requires Follows(parts, s) && Heard(parts, s) && n <= |s.order|
    ensures var f := Flush(src, s, writes, n);
            ThinkingLeads(parts, f.rows) && ThinkingText(f.rows) == ThinkingText(s.rows) && f.thinking == s.thinking
  {
    if n > 0 {
      FlushHeard(src, parts, s, writes, n - 1);
      FlushCloses(src, parts, s, writes, n - 1);
      var f, c := Flush(src, s, writes, n - 1), s.order[n - 1];
      if c in f.pending && writes(n - 1) {
        assert s.pending[c].content == [FirstCall(parts, c)];
        FirstCallIsCall(parts, c);
        PairLeads(src, parts, f, c, Placeholder(f.failure), true);
      }
    }
  }

  /** When no thinking flush fails, what was thought before a call is stored before it, and a turn
      that stores its closing message has stored every thought. */
  lemma ThinkingIsTold(src: Source, base: nat, events: seq<Event>, writes: nat -> bool, finalOk: bool)
    requires !HasEmptyCall(AllParts(events)) && AllFlushed(AllParts(events))
    ensures var parts, e := AllParts(events), RunTurn(src, Fresh(base), events, writes, finalOk);
            && ThinkingLeads(parts, e.rows)
            && (e.pending == map[] && finalOk ==> ThinkingText(e.rows) == Thought(parts))
  {
    var parts, s := AllParts(events), TakeEvents(src, Fresh(base), events).0;
    StreamFollows(src, base, events);
    StreamHeard(src, base, events);
    FlushHeard(src, parts, s, writes, |s.order|);
    var f := Flush(src, s, writes, |s.order|);
    if f.pending == map[] && FinalContent(f) != [] {
      var m := Minted(src, f, FinalContent(f));
      ThinkingGrows(f.rows, m);
      FinalThinking(f);
      LeadsMore(parts, f.rows, m);
    }
    assert ThinkingText(s.rows) + "" == ThinkingText(s.rows);
  }

  lemma FinalThinking(f: State)
    ensures ThinkingIn(FinalContent(f)) == f.thinking
    ensures |FinalContent(f)| == 1 ==> !FinalContent(f)[0].ToolCall?
  {
    LoneThinking(Thinking(f.thinking));
    LoneThinking(Text(f.text));
    var both := [Thinking(f.thinking), Text(f.text)];
    assert both[..1] == [Thinking(f.thinking)] && f.thinking + "" == f.thinking;
    assert [Thinking(f.thinking)] + [Text(f.text)] == both;
    assert [] + [Text(f.text)] == [Text(f.text)] && [Thinking(f.thinking)] + [] == [Thinking(f.thinking)];
    assert ThinkingIn(both) == ThinkingIn([Thinking(f.thinking)]) + "";
  }
}
