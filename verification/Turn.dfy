/** The turn event machine: what one stream of agent events writes to the store
    (service/agent/runner.go, processEvents). */
module Turn {
  import opened Messages
  import opened Sorting

  datatype Maybe<T> = None | Some(value: T)

  datatype FunctionCall = FunctionCall(id: string, name: string, arguments: string)

  datatype FunctionResponse = FunctionResponse(id: string, output: string)

  /** One part of an event. `signed` says that it carries a thought signature. */
  datatype Part = Part(
    call: Maybe<FunctionCall>,
    response: Maybe<FunctionResponse>,
    thought: bool,
    text: string,
    signed: bool)

  /** What the world answers while one part is handled: whether the thinking flush before a call,
      the pair write and the signed-thinking flush succeed, and whether the turn was cancelled. */
  datatype World = World(flushOk: bool, canceled: bool, pairOk: bool, signedOk: bool)

  datatype Event =
    | StreamError(canceled: bool, message: string)
    | NoContent
    | Content(parts: seq<(Part, World)>)

  /** Where messages of this turn come from: a thread, a turn id and an injective id mint. */
  datatype Source = Source(thread: string, turn: string, mint: nat -> string)

  datatype State = State(
    rows: seq<Message>,
    msgSeq: nat,
    pending: map<string, Message>,
    order: seq<string>,
    seenCalls: set<string>,
    seenResults: set<string>,
    thinking: string,
    text: string,
    failure: Maybe<string>)

  // ----- Steps, as functions -----

  /** The message minted next: id and position both come from the advanced counter. */
  function Minted(src: Source, s: State, content: seq<Block>): Message {
    Message(src.mint(s.msgSeq + 1), src.thread, src.turn, s.msgSeq + 1, Assistant, content)
  }

  function StoreThinking(src: Source, s: State, ok: bool): State {
    if s.thinking == "" then s
    else
      var m := Minted(src, s, [Thinking(s.thinking)]);
      s.(rows := if ok then s.rows + [m] else s.rows, msgSeq := s.msgSeq + 1, thinking := "")
  }

  function Buffered(src: Source, s: State, fc: FunctionCall): State {
    var m := Minted(src, s, [ToolCall(fc.id, fc.name, fc.arguments)]);
    s.(msgSeq := s.msgSeq + 1, pending := s.pending[fc.id := m], order := s.order + [fc.id], seenCalls :=
       s.seenCalls + {fc.id})
  }

  /** Buffers a call met for the first time, after flushing the thinking that led to it. */
  function BufferCall(src: Source, s: State, fc: FunctionCall, flushOk: bool): State {
    if fc.id in s.seenCalls then s
    else
      Buffered(src, StoreThinking(src, s, flushOk), fc)
  }

  /** A response that is neither cancelled nor a repeat. */
  predicate Considered(s: State, fr: FunctionResponse, w: World) {
    !w.canceled && !(fr.id != "" && fr.id in s.seenResults)
  }

  predicate Stored(s: State, fr: FunctionResponse, w: World) {
    Considered(s, fr, w) && fr.id in s.pending && w.pairOk
  }

  /** Writes a buffered call and its result in one transaction. */
  function WritePair(src: Source, s: State, id: string, content: string, isError: bool): State
    requires id in s.pending
  {
    var result := Minted(src, s, [ToolResult(id, content, isError)]);
    s.(rows := s.rows + [s.pending[id], result], msgSeq := s.msgSeq + 1, pending := s.pending - {id})
  }

  /** Co-writes a buffered call with its result; anything unpairable is dropped. */
  function TakeResponse(src: Source, s: State, fr: FunctionResponse, w: World): State {
    if !Considered(s, fr, w) then s
    else if !Stored(s, fr, w) then s.(msgSeq := s.msgSeq + 1)
    else WritePair(src, s, fr.id, fr.output, false).(seenResults := s.seenResults + {fr.id})
  }

  function TakeText(src: Source, s: State, p: Part, ok: bool): State {
    if p.call.None? && p.thought && (p.text != "" || p.signed) then
      var s1 := s.(thinking := s.thinking + p.text);
      if p.signed then StoreThinking(src, s1, ok) else s1
    else if p.text != "" && p.call.None? then s.(text := s.text + p.text)
    else s
  }

  predicate Refused(p: Part) {
    p.call.Some? && p.call.value.id == ""
  }

  /** A call met again is skipped together with the rest of its part; so is a response that is
      cancelled, repeated, unpairable or whose write failed. */
  function TakePart(src: Source, s: State, p: Part, w: World): State
    requires !Refused(p)
  {
    if p.call.Some? && p.call.value.id in s.seenCalls then s
    else
      var s1 := if p.call.Some? then BufferCall(src, s, p.call.value, w.flushOk) else s;
      if p.response.None? then TakeText(src, s1, p, w.signedOk)
      else
        var s2 := TakeResponse(src, s1, p.response.value, w);
        if Stored(s1, p.response.value, w) then TakeText(src, s2, p, w.signedOk) else s2
  }

  /** The state after a run of parts, and whether the turn was refused on the way. */
  function TakeParts(src: Source, s: State, parts: seq<(Part, World)>): (State, bool) {
    if parts == [] then (s, false)
    else
      var (s1, refused) := TakeParts(src, s, parts[..|parts| - 1]);
      var (p, w) := parts[|parts| - 1];
      if refused || Refused(p) then (s1, true) else (TakePart(src, s1, p, w), false)
  }

  function TakeEvent(src: Source, s: State, e: Event): (State, bool) {
    match e
    case StreamError(canceled, message) => (if canceled then s else s.(failure := Some(message)), false)
    case NoContent => (s, false)
    case Content(parts) => TakeParts(src, s, parts)
  }

  function TakeEvents(src: Source, s: State, events: seq<Event>): (State, bool) {
    if events == [] then (s, false)
    else
      var (s1, refused) := TakeEvents(src, s, events[..|events| - 1]);
      if refused then (s1, true) else TakeEvent(src, s1, events[|events| - 1])
  }

  /** The error result of a call that got none; the last stream error, if any, is quoted. */
  function Placeholder(failure: Maybe<string>): string {
    match failure
    case None => "Tool execution ended without a result."
    case Some(message) => "Tool execution failed: " + message
  }

  /** Closes one still-buffered call with an error result. */
  function FlushOne(src: Source, s: State, id: string, ok: bool): State {
    if id !in s.pending then s
    else if !ok then s.(msgSeq := s.msgSeq + 1)
    else WritePair(src, s, id, Placeholder(s.failure), true)
  }

  /** The turn-end flush over the first `n` buffered calls; `writes[i]` is the fate of the i-th. */
  function Flush(src: Source, s: State, writes: nat -> bool, n: nat): State
    requires n <= |s.order|
  {
    if n == 0 then s else FlushOne(src, Flush(src, s, writes, n - 1), s.order[n - 1], writes(n - 1))
  }

  /** The closing message with what thinking and text accumulated. */
  function FinalContent(s: State): seq<Block> {
    (if s.thinking != "" then [Thinking(s.thinking)] else []) + (if s.text != "" then [Text(s.text)] else [])
  }

  function Finish(src: Source, s: State, ok: bool): State {
    if FinalContent(s) == [] then s
    else s.(rows := if ok then s.rows + [Minted(src, s, FinalContent(s))] else s.rows, msgSeq := s.msgSeq + 1)
  }

  // ----- The invariant -----

  predicate IsCall(m: Message) {
    |m.content| == 1 && m.content[0].ToolCall?
  }

  predicate IsResult(m: Message) {
    |m.content| == 1 && m.content[0].ToolResult?
  }

  predicate IsPlain(m: Message) {
    forall i :: 0 <= i < |m.content| ==> !m.content[i].ToolCall? && !m.content[i].ToolResult?
  }

  /** The calls among the rows, in order. */
  ghost function CallIds(rows: seq<Message>): seq<string> {
    if rows == [] then []
    else
      var m := rows[|rows| - 1];
      if IsCall(m) then CallIds(rows[..|rows| - 1]) + [m.content[0].id] else CallIds(rows[..|rows| - 1])
  }

  /** The calls the rows answer, in order. */
  ghost function ResultIds(rows: seq<Message>): seq<string> {
    if rows == [] then []
    else
      var m := rows[|rows| - 1];
      if IsResult(m) then ResultIds(rows[..|rows| - 1]) + [m.content[0].callID] else ResultIds(rows[..|rows| - 1])
  }

  /** The calls the rows answer with an error placeholder. */
  ghost function ErrorIds(rows: seq<Message>): seq<string> {
    if rows == [] then []
    else
      var m := rows[|rows| - 1];
      if IsResult(m) && m.content[0].isError then ErrorIds(rows[..|rows| - 1]) + [m.content[0].callID]
      else ErrorIds(rows[..|rows| - 1])
  }

  /** Calls reach the store only in pairs, each once; every accepted call is either stored or
      still buffered. */
  ghost predicate InPairs(s: State) {
    && (forall m :: m in s.rows ==> IsCall(m) || IsResult(m) || IsPlain(m))
    && CallIds(s.rows) == ResultIds(s.rows)
    && Distinct(CallIds(s.rows))
    && (forall c :: c in CallIds(s.rows) ==> c in s.seenCalls && c !in s.pending)
    && (forall c :: c in s.pending ==> c in s.seenCalls && IsCall(s.pending[c]) && s.pending[c].content[0].id == c)
    && (forall c :: c in s.seenCalls ==> c != "" && (c in s.pending || c in CallIds(s.rows)))
    && (forall c :: c in s.order <==> c in s.seenCalls)
    && Distinct(s.order)
  }

  /** While the stream runs, exactly the stored calls have a real result. */
  ghost predicate Streaming(s: State) {
    ErrorIds(s.rows) == [] && forall c :: c in s.seenResults <==> c in CallIds(s.rows)
  }

  lemma {:induction false} IdsOfPlain(rows: seq<Message>, m: Message)
    requires IsPlain(m)
    ensures CallIds(rows + [m]) == CallIds(rows) && ResultIds(rows + [m]) == ResultIds(rows) &&
            ErrorIds(rows + [m]) == ErrorIds(rows)
  {
    assert (rows + [m])[..|rows|] == rows;
  }

  lemma IdsOfPair(rows: seq<Message>, call: Message, result: Message)
    requires IsCall(call) && IsResult(result) && call.content[0].id == result.content[0].callID
    ensures CallIds(rows + [call, result]) == CallIds(rows) + [call.content[0].id]
    ensures ResultIds(rows + [call, result]) == ResultIds(rows) + [call.content[0].id]
    ensures ErrorIds(rows + [call, result]) == if result.content[0].isError then ErrorIds(rows) + [call.content[0].id]
            else ErrorIds(rows)
  {
    var r1, r2 := rows + [call], rows + [call, result];
    assert r2[..|r1|] == r1 && r1[..|rows|] == rows;
  }

  lemma StoreThinkingKeeps(src: Source, s: State, ok: bool)
    ensures InPairs(s) ==> InPairs(StoreThinking(src, s, ok))
    ensures Streaming(s) ==> Streaming(StoreThinking(src, s, ok))
    ensures var s' := StoreThinking(src, s, ok);
            s'.pending == s.pending && s'.seenCalls == s.seenCalls && s'.seenResults == s.seenResults &&
                s'.order == s.order &&
            CallIds(s'.rows) == CallIds(s.rows)
  {
    IdsOfPlain(s.rows, Minted(src, s, [Thinking(s.thinking)]));
  }

  lemma WritePairKeeps(src: Source, s: State, id: string, content: string, isError: bool)
    requires InPairs(s) && id in s.pending
    ensures InPairs(WritePair(src, s, id, content, isError))
    ensures var s' := WritePair(src, s, id, content, isError);
            && CallIds(s'.rows) == CallIds(s.rows) + [id]
            && ErrorIds(s'.rows) == if isError then ErrorIds(s.rows) + [id] else ErrorIds(s.rows)
  {
    var result := Minted(src, s, [ToolResult(id, content, isError)]);
    IdsOfPair(s.rows, s.pending[id], result);
    var s' := WritePair(src, s, id, content, isError);
    assert CallIds(s'.rows) == CallIds(s.rows) + [id];
    assert id !in CallIds(s.rows);
  }

  lemma BufferCallKeeps(src: Source, s: State, fc: FunctionCall, flushOk: bool)
    requires InPairs(s) && fc.id != ""
    ensures InPairs(BufferCall(src, s, fc, flushOk))
    ensures Streaming(s) ==> Streaming(BufferCall(src, s, fc, flushOk))
  {
    if fc.id !in s.seenCalls {
      StoreThinkingKeeps(src, s, flushOk);
      BufferedKeeps(src, StoreThinking(src, s, flushOk), fc);
    }
  }

  lemma BufferedKeeps(src: Source, s: State, fc: FunctionCall)
    requires InPairs(s) && fc.id != "" && fc.id !in s.seenCalls
    ensures InPairs(Buffered(src, s, fc)) && (Streaming(s) ==> Streaming(Buffered(src, s, fc)))
  {
    assert fc.id !in s.order && fc.id !in CallIds(s.rows);
  }

  lemma TakeResponseKeeps(src: Source, s: State, fr: FunctionResponse, w: World)
    requires InPairs(s)
    ensures InPairs(TakeResponse(src, s, fr, w))
    ensures Streaming(s) ==> Streaming(TakeResponse(src, s, fr, w))
  {
    if Stored(s, fr, w) { WritePairKeeps(src, s, fr.id, fr.output, false); }
  }

  lemma TakeTextKeeps(src: Source, s: State, p: Part, ok: bool)
    ensures InPairs(s) ==> InPairs(TakeText(src, s, p, ok))
    ensures Streaming(s) ==> Streaming(TakeText(src, s, p, ok))
  {
    var s1, s2 := s.(thinking := s.thinking + p.text), s.(text := s.text + p.text);
    SameBooks(s, s1);
    SameBooks(s, s2);
    StoreThinkingKeeps(src, s1, ok);
  }

  /** Thinking and text buffers play no part in the pairing. */
  lemma SameBooks(s: State, s': State)
    requires s'.rows == s.rows && s'.pending == s.pending && s'.order == s.order
    requires s'.seenCalls == s.seenCalls && s'.seenResults == s.seenResults
    ensures InPairs(s) ==> InPairs(s')
    ensures Streaming(s) ==> Streaming(s')
  {
  }

  lemma TakePartKeeps(src: Source, s: State, p: Part, w: World)
    requires InPairs(s) && Streaming(s) && !Refused(p)
    ensures InPairs(TakePart(src, s, p, w)) && Streaming(TakePart(src, s, p, w))
  {
    var s1 := if p.call.Some? then BufferCall(src, s, p.call.value, w.flushOk) else s;
    if p.call.Some? { BufferCallKeeps(src, s, p.call.value, w.flushOk); }
    TakeTextKeeps(src, s1, p, w.signedOk);
    if p.response.Some? {
      TakeResponseKeeps(src, s1, p.response.value, w);
      TakeTextKeeps(src, TakeResponse(src, s1, p.response.value, w), p, w.signedOk);
    }
  }

  /** After any run of parts, refused or not, the rows are paired. */
  lemma {:induction false} TakePartsKeeps(src: Source, s: State, parts: seq<(Part, World)>)
    requires InPairs(s) && Streaming(s)
    ensures InPairs(TakeParts(src, s, parts).0) && Streaming(TakeParts(src, s, parts).0)
  {
    if parts != [] {
      TakePartsKeeps(src, s, parts[..|parts| - 1]);
      var (s1, refused) := TakeParts(src, s, parts[..|parts| - 1]);
      var (p, w) := parts[|parts| - 1];
      if !refused && !Refused(p) { TakePartKeeps(src, s1, p, w); }
    }
  }

  lemma {:induction false} TakeEventsKeeps(src: Source, s: State, events: seq<Event>)
    requires InPairs(s) && Streaming(s)
    ensures InPairs(TakeEvents(src, s, events).0) && Streaming(TakeEvents(src, s, events).0)
  {
    if events != [] {
      TakeEventsKeeps(src, s, events[..|events| - 1]);
      var (s1, refused) := TakeEvents(src, s, events[..|events| - 1]);
      var e := events[|events| - 1];
      if e.Content? { TakePartsKeeps(src, s1, e.parts); }
    }
  }

  // ----- The turn-end flush -----

  /** Error placeholders stand exactly where no real result was stored. */
  ghost predicate HonestErrors(s: State) {
    forall c :: c in ErrorIds(s.rows) <==> c in CallIds(s.rows) && c !in s.seenResults
  }

  /** What holds of the books from the end of the stream on. */
  ghost predicate Closing(s: State) {
    InPairs(s) && HonestErrors(s) && forall c :: c in s.seenResults ==> c in CallIds(s.rows)
  }

  /** The flush touches neither what was accepted nor what was answered. */
  ghost predicate SameTurn(s: State, f: State) {
    && f.seenCalls == s.seenCalls && f.seenResults == s.seenResults && f.order == s.order
    && forall c :: c in f.pending ==> c in s.pending
  }

  lemma FlushOneKeeps(src: Source, s: State, id: string, ok: bool)
    requires Closing(s)
    ensures Closing(FlushOne(src, s, id, ok)) && SameTurn(s, FlushOne(src, s, id, ok))
    ensures ok ==> id !in FlushOne(src, s, id, ok).pending
  {
    if id in s.pending && ok { WritePairKeeps(src, s, id, Placeholder(s.failure), true); }
  }

  lemma {:induction false} FlushKeeps(src: Source, s: State, writes: nat -> bool, n: nat)
    requires Closing(s) && n <= |s.order|
    ensures Closing(Flush(src, s, writes, n)) && SameTurn(s, Flush(src, s, writes, n))
  {
    if n > 0 {
      FlushKeeps(src, s, writes, n - 1);
      FlushOneKeeps(src, Flush(src, s, writes, n - 1), s.order[n - 1], writes(n - 1));
    }
  }

  lemma {:induction false} FlushEmpties(src: Source, s: State, writes: nat -> bool, n: nat, i: nat)
    requires i < n <= |s.order| && writes(i)
    ensures s.order[i] !in Flush(src, s, writes, n).pending
  {
    if i < n - 1 { FlushEmpties(src, s, writes, n - 1, i); }
  }

  /** When no flush write fails, every accepted call ends up stored with exactly one result, an
      error placeholder exactly when no real result was stored. */
  lemma FlushPairsEverything(src: Source, s: State, writes: nat -> bool)
    requires InPairs(s) && Streaming(s) && forall i :: 0 <= i < |s.order| ==> writes(i)
    ensures var f := Flush(src, s, writes, |s.order|);
            && f.pending == map[]
            && (forall c :: c in CallIds(f.rows) <==> c in s.seenCalls)
            && CallIds(f.rows) == ResultIds(f.rows) && Distinct(CallIds(f.rows))
            && (forall c :: c in ErrorIds(f.rows) <==> c in s.seenCalls && c !in s.seenResults)
  {
    FlushKeeps(src, s, writes, |s.order|);
    var f := Flush(src, s, writes, |s.order|);
    forall c ensures c !in f.pending {
      if c in f.pending {
        assert c in s.order;
        var i :| 0 <= i < |s.order| && s.order[i] == c;
        FlushEmpties(src, s, writes, |s.order|, i);
      }
    }
  }

  lemma FinishKeeps(src: Source, s: State, ok: bool)
    requires InPairs(s)
    ensures InPairs(Finish(src, s, ok))
    ensures CallIds(Finish(src, s, ok).rows) == CallIds(s.rows) && ErrorIds(Finish(src, s, ok).rows) == ErrorIds(s.rows)
  {
    IdsOfPlain(s.rows, Minted(src, s, FinalContent(s)));
  }

  // ----- Whole turns -----

  /** The state a turn starts in. */
  function Fresh(base: nat): (s: State)
    ensures InPairs(s) && Streaming(s)
  {
    State([], base, map[], [], {}, {}, "", "", None)
  }

  /** The end of a turn: the flush, then the closing message unless a flush write failed. */
  function EndTurn(src: Source, s: State, writes: nat -> bool, finalOk: bool): State {
    var f := Flush(src, s, writes, |s.order|);
    if f.pending != map[] then f else Finish(src, f, finalOk)
  }

  /** A refused turn stops where it stands. */
  function RunTurn(src: Source, s: State, events: seq<Event>, writes: nat -> bool, finalOk: bool): State {
    var (s1, refused) := TakeEvents(src, s, events);
    if refused then s1 else EndTurn(src, s1, writes, finalOk)
  }

  lemma RunTurnKeeps(src: Source, s: State, events: seq<Event>, writes: nat -> bool, finalOk: bool)
    requires InPairs(s) && Streaming(s)
    ensures Closing(RunTurn(src, s, events, writes, finalOk))
  {
    TakeEventsKeeps(src, s, events);
    var s1 := TakeEvents(src, s, events).0;
    EndTurnKeeps(src, s1, writes, finalOk);
  }

  lemma EndTurnKeeps(src: Source, s: State, writes: nat -> bool, finalOk: bool)
    requires InPairs(s) && Streaming(s)
    ensures Closing(s) && Closing(EndTurn(src, s, writes, finalOk))
  {
    FlushKeeps(src, s, writes, |s.order|);
    FinishKeeps(src, Flush(src, s, writes, |s.order|), finalOk);
  }

  /** A turn that is not refused and whose flush writes succeed stores every accepted call with
      exactly one result, an error placeholder exactly when no real result was stored. */
  lemma CleanTurnPairsEverything(src: Source, s: State, events: seq<Event>, writes: nat -> bool, finalOk: bool)
    requires InPairs(s) && Streaming(s) && !TakeEvents(src, s, events).1 && forall i: nat :: writes(i)
    ensures var s1 := TakeEvents(src, s, events).0;
            var e := RunTurn(src, s, events, writes, finalOk);
            && (forall c :: c in CallIds(e.rows) <==> c in s1.seenCalls)
            && CallIds(e.rows) == ResultIds(e.rows) && Distinct(CallIds(e.rows))
            && (forall c :: c in ErrorIds(e.rows) <==> c in s1.seenCalls && c !in s1.seenResults)
  {
    TakeEventsKeeps(src, s, events);
    var s1 := TakeEvents(src, s, events).0;
    FlushPairsEverything(src, s1, writes);
    FlushKeeps(src, s1, writes, |s1.order|);
    FinishKeeps(src, Flush(src, s1, writes, |s1.order|), finalOk);
  }
}
