/** The turn event machine as the runner executes it: buffers and store updated in place
    (service/agent/runner.go, processEvents). */
module TurnRunner {
  import Sorting
  import opened Messages
  import opened Turn
  import opened TurnStory

  /** How a turn ends. */
  datatype Outcome =
    | EmptyCallId
    | FlushFailed
    | StoreFailed
    | Reply(message: Message)
    | Stopped
    | AgentError(cause: string)
    | NoResponse

  class Runner {
    const src: Source
    var rows: seq<Message>
    var msgSeq: nat
    var pending: map<string, Message>
    var order: seq<string>
    var seenCalls: set<string>
    var seenResults: set<string>
    var thinking: string
    var text: string
    var failure: Maybe<string>

    constructor (src: Source, base: nat)
      ensures this.src == src && Books() == Fresh(base)
    {
      this.src, rows, msgSeq, pending, order := src, [], base, map[], [];
      seenCalls, seenResults, thinking, text, failure := {}, {}, "", "", None;
    }

    ghost function Books(): State
      reads this
    {
      State(rows, msgSeq, pending, order, seenCalls, seenResults, thinking, text, failure)
    }

    method Mint(content: seq<Block>) returns (m: Message)
      modifies this`msgSeq
      ensures msgSeq == old(msgSeq) + 1
      ensures m == Minted(src, old(Books()), content)
    {
      msgSeq := msgSeq + 1;
      m := Message(src.mint(msgSeq), src.thread, src.turn, msgSeq, Assistant, content);
    }

    method FlushThinking(ok: bool)
      modifies this
      ensures Books() == StoreThinking(src, old(Books()), ok)
    {
      if thinking != "" {
        var m := Mint([Thinking(thinking)]);
        if ok { rows := rows + [m]; }
        thinking := "";
      }
    }

    /** One transaction: both rows or neither. */
    method IndexPair(id: string, content: string, isError: bool, ok: bool)
      requires id in pending
      modifies this
      ensures Books() == if ok then WritePair(src, old(Books()), id, content, isError)
                         else old(Books()).(msgSeq := old(msgSeq) + 1)
    {
      var result := Mint([ToolResult(id, content, isError)]);
      if ok {
        rows := rows + [pending[id], result];
        pending := pending - {id};
      }
    }

    method AcceptCall(fc: FunctionCall, flushOk: bool)
      requires fc.id !in seenCalls
      modifies this
      ensures Books() == BufferCall(src, old(Books()), fc, flushOk)
    {
      seenCalls := seenCalls + {fc.id};
      ghost var before := Books();
      FlushThinking(flushOk);
      assert StoreThinking(src, before, flushOk) == StoreThinking(src, old(Books()), flushOk).(seenCalls := seenCalls);
      var m := Mint([ToolCall(fc.id, fc.name, fc.arguments)]);
      pending := pending[fc.id := m];
      order := order + [fc.id];
    }

    /** Whether the response was stored. */
    method AcceptResponse(fr: FunctionResponse, w: World) returns (stored: bool)
      modifies this
      ensures Books() == TakeResponse(src, old(Books()), fr, w)
      ensures stored == Stored(old(Books()), fr, w)
      // Stored is an uncancelled first answer to a buffered call whose write succeeds, and nothing else.
      ensures stored <==> (!w.canceled && (fr.id == "" || fr.id !in old(seenResults)) &&
                           fr.id in old(pending) && w.pairOk)
      ensures stored ==> rows == old(rows) + [old(pending)[fr.id],
                Message(src.mint(old(msgSeq) + 1), src.thread, src.turn, old(msgSeq) + 1, Assistant,
                        [ToolResult(fr.id, fr.output, false)])]
      ensures !stored ==> rows == old(rows) && pending == old(pending)
    {
      if w.canceled || (fr.id != "" && fr.id in seenResults) { return false; }
      if fr.id !in pending {
        msgSeq := msgSeq + 1;
        return false;
      }
      IndexPair(fr.id, fr.output, false, w.pairOk);
      if !w.pairOk { return false; }
      seenResults := seenResults + {fr.id};
      return true;
    }

    method AcceptText(p: Part, ok: bool)
      modifies this
      ensures Books() == TakeText(src, old(Books()), p, ok)
    {
      if p.call.None? && p.thought && (p.text != "" || p.signed) {
        thinking := thinking + p.text;
        if p.signed { FlushThinking(ok); }
      } else if p.text != "" && p.call.None? {
        text := text + p.text;
      }
    }

    method AcceptPart(p: Part, w: World)
      requires !Refused(p)
      modifies this
      ensures Books() == TakePart(src, old(Books()), p, w)
    {
      if p.call.Some? {
        if p.call.value.id in seenCalls { return; }
        AcceptCall(p.call.value, w.flushOk);
      }
      if p.response.Some? {
        var stored := AcceptResponse(p.response.value, w);
        if !stored { return; }
      }
      AcceptText(p, w.signedOk);
    }

    method AcceptParts(parts: seq<(Part, World)>) returns (refused: bool)
      modifies this
      ensures (Books(), refused) == TakeParts(src, old(Books()), parts)
      ensures InPairs(old(Books())) && Streaming(old(Books())) ==> InPairs(Books()) && Streaming(Books())
    {
      ghost var start := Books();
      for i := 0 to |parts|
        invariant TakeParts(src, start, parts[..i]) == (Books(), false)
      {
        assert parts[..i + 1][..i] == parts[..i];
        if Refused(parts[i].0) {
          RefusalSticks(src, start, parts, i);
          if InPairs(start) && Streaming(start) { TakePartsKeeps(src, start, parts); }
          return true;
        }
        AcceptPart(parts[i].0, parts[i].1);
      }
      assert parts[..|parts|] == parts;
      if InPairs(start) && Streaming(start) { TakePartsKeeps(src, start, parts); }
      return false;
    }

    /** Drains the stream; after every event the rows are paired. */
    method Drain(events: seq<Event>) returns (refused: bool)
      requires InPairs(Books()) && Streaming(Books())
      modifies this
      ensures (Books(), refused) == TakeEvents(src, old(Books()), events)
      ensures InPairs(Books()) && Streaming(Books())
    {
      ghost var start := Books();
      for i := 0 to |events|
        invariant TakeEvents(src, start, events[..i]) == (Books(), false)
        invariant InPairs(Books()) && Streaming(Books())
      {
        assert events[..i + 1][..i] == events[..i];
        match events[i]
        case StreamError(canceled, message) =>
          ghost var before := Books();
          if !canceled { failure := Some(message); }
          SameBooks(before, Books());
        case NoContent =>
        case Content(parts) =>
          var stop := AcceptParts(parts);
          if stop {
            StopSticks(src, start, events, i);
            return true;
          }
      }
      assert events[..|events|] == events;
      return false;
    }

    /** Closes every call still buffered; fails exactly when some write failed, which leaves
        exactly those calls buffered. */
    method FlushPending(writes: nat -> bool) returns (failed: bool)
      requires Closing(Books())
      modifies this
      ensures Books() == Flush(src, old(Books()), writes, |old(order)|)
      ensures failed <==> pending != map[]
      ensures Closing(Books())
    {
      ghost var start := Books();
      failed := false;
      for i := 0 to |order|
        invariant order == start.order
        invariant Books() == Flush(src, start, writes, i)
        invariant failed <==> exists j :: 0 <= j < i && order[j] in pending
      {
        ghost var before := Books();
        if order[i] in pending {
          IndexPair(order[i], Placeholder(failure), true, writes(i));
          failed := failed || !writes(i);
          Earlier(before, Books(), i);
        }
      }
      FlushKeeps(src, start, writes, |order|);
      assert pending != map[] ==> exists c :: c in pending;
      assert forall c :: c in pending ==> c in order;
    }

    /** Drives one turn: what it stores is `RunTurn`, and its outcome reports the first failure. */
    method ProcessEvents(events: seq<Event>, writes: nat -> bool, finalOk: bool, stopped: bool)
      returns (outcome: Outcome)
      requires InPairs(Books()) && Streaming(Books())
      modifies this
      ensures Books() == RunTurn(src, old(Books()), events, writes, finalOk)
      ensures Closing(Books())
      ensures outcome.EmptyCallId? <==> TakeEvents(src, old(Books()), events).1
      ensures !outcome.EmptyCallId? ==> (outcome.FlushFailed? <==> pending != map[])
      ensures !outcome.EmptyCallId? && !outcome.FlushFailed? ==>
                Ends(src, Flushed(src, old(Books()), events, writes), finalOk, stopped, outcome)
      ensures outcome.Reply? ==> rows != [] && rows[|rows| - 1] == outcome.message && IsPlain(outcome.message)
      // Said of the stream alone, for a turn that starts afresh.
      ensures old(Books()) == Fresh(old(msgSeq)) ==> Reported(events, writes, finalOk, stopped, rows, outcome)
    {
      ghost var start := Books();
      RunTurnKeeps(src, start, events, writes, finalOk);
      var refused := Drain(events);
      if refused {
        outcome := EmptyCallId;
      } else {
        var failed := FlushPending(writes);
        if failed {
          outcome := FlushFailed;
        } else {
          outcome := Conclude(finalOk, stopped);
        }
      }
      if start == Fresh(start.msgSeq) {
        TurnIsReported(src, start.msgSeq, events, writes, finalOk, stopped, outcome);
      }
    }

    /** Stores the closing message, if there is anything to say. */
    method Conclude(finalOk: bool, stopped: bool) returns (outcome: Outcome)
      modifies this
      ensures Books() == Finish(src, old(Books()), finalOk)
      ensures Ends(src, old(Books()), finalOk, stopped, outcome)
      ensures outcome.Reply? ==> rows != [] && rows[|rows| - 1] == outcome.message && IsPlain(outcome.message)
    {
      var blocks := (if thinking != "" then [Thinking(thinking)] else []) + (if text != "" then [Text(text)] else []);
      if blocks != [] {
        var m := Mint(blocks);
        if !finalOk { return StoreFailed; }
        rows := rows + [m];
        return Reply(m);
      }
      if stopped { return Stopped; }
      match failure
      case Some(message) => return AgentError(message);
      case None => return NoResponse;
    }
  }

  /** The books after the stream and the flush. */
  ghost function Flushed(src: Source, s: State, events: seq<Event>, writes: nat -> bool): State {
    var s1 := TakeEvents(src, s, events).0;
    Flush(src, s1, writes, |s1.order|)
  }

  /** How a turn whose calls are all closed ends: with something to say it replies or fails to
      store the reply; silent, a stop comes before the stream's last error, and that before no
      response at all. */
  ghost predicate Ends(src: Source, s: State, finalOk: bool, stopped: bool, outcome: Outcome) {
    var content := FinalContent(s);
    && (outcome.Reply? <==> content != [] && finalOk)
    && (outcome.StoreFailed? <==> content != [] && !finalOk)
    && (outcome.Stopped? <==> content == [] && stopped)
    && (outcome.AgentError? <==> content == [] && !stopped && s.failure.Some?)
    && (outcome.NoResponse? <==> content == [] && !stopped && s.failure.None?)
    && (outcome.Reply? ==> outcome.message == Minted(src, s, content))
    && (outcome.AgentError? ==> s.failure == Some(outcome.cause))
  }

  /** What a fresh turn does with a stream, said of its parts: which calls and results it stores, that
      thinking stands before the call it led to, what it replies and how it fails. */
  ghost predicate Reported(events: seq<Event>, writes: nat -> bool, finalOk: bool, stopped: bool, rows: seq<Message>,
                           outcome: Outcome) {
    var parts := AllParts(events);
    && (outcome.EmptyCallId? <==> HasEmptyCall(parts))
    && (!outcome.EmptyCallId? ==>
          && Told(events, writes, rows)
          && (AllFlushed(parts) ==> ThinkingLeads(parts, rows))
          && (outcome.FlushFailed? <==> LeftOpen(parts, writes))
          && (Said(parts) != "" ==> outcome.FlushFailed? || outcome.Reply? || outcome.StoreFailed?)
          && (outcome.Reply? ==> SaysReply(parts, rows, outcome.message))
          && (outcome.Stopped? || outcome.AgentError? || outcome.NoResponse? ==> (outcome.Stopped? <==> stopped))
          && (outcome.AgentError? ==> LastError(events) == Some(outcome.cause))
          && (outcome.NoResponse? ==> LastError(events) == None))
  }

  /** The reply is stored last, and its text is all that the stream said. */
  ghost predicate SaysReply(parts: seq<(Part, World)>, rows: seq<Message>, m: Message) {
    && rows != [] && rows[|rows| - 1] == m && m.content != []
    && (Said(parts) != "" ==> m.content[|m.content| - 1] == Text(Said(parts)))
    && (forall b :: b in m.content ==> b.Thinking? || b == Text(Said(parts)))
    && (AllFlushed(parts) ==> ThinkingText(rows) == Thought(parts))
  }

  /** What the specification of a fresh turn says of its stream. */
  lemma TurnIsReported(src: Source, base: nat, events: seq<Event>, writes: nat -> bool, finalOk: bool, stopped: bool,
                       outcome: Outcome)
    requires outcome.EmptyCallId? <==> TakeEvents(src, Fresh(base), events).1
    requires var e, f := RunTurn(src, Fresh(base), events, writes, finalOk), Flushed(src, Fresh(base), events, writes);
             !outcome.EmptyCallId? ==>
               && (outcome.FlushFailed? <==> e.pending != map[])
               && (!outcome.FlushFailed? ==> Ends(src, f, finalOk, stopped, outcome))
               && (outcome.Reply? ==> e.rows != [] && e.rows[|e.rows| - 1] == outcome.message)
    ensures Reported(events, writes, finalOk, stopped, RunTurn(src, Fresh(base), events, writes, finalOk).rows, outcome)
  {
    StreamFollows(src, base, events);
    if !outcome.EmptyCallId? {
      TurnIsTold(src, base, events, writes, finalOk);
      if AllFlushed(AllParts(events)) { ThinkingIsTold(src, base, events, writes, finalOk); }
      var f := Flushed(src, Fresh(base), events, writes);
      assert RunTurn(src, Fresh(base), events, writes, finalOk).pending == f.pending;
      ContentSays(f);
    }
  }

  lemma ContentSays(f: State)
    ensures FinalContent(f) == [] <==> f.thinking == "" && f.text == ""
    ensures forall b :: b in FinalContent(f) ==> b.Thinking? || b == Text(f.text)
    ensures f.text != "" ==> FinalContent(f) != [] && FinalContent(f)[|FinalContent(f)| - 1] == Text(f.text)
  {
  }

  /** The calls already visited by the flush stay as they are while a later one is closed. */
  lemma Earlier(s: State, t: State, n: nat)
    requires n < |s.order| && t.order == s.order && Sorting.Distinct(s.order)
    requires t.pending == s.pending || t.pending == s.pending - {s.order[n]}
    ensures forall j :: 0 <= j < n ==> (s.order[j] in t.pending <==> s.order[j] in s.pending)
  {
  }

  lemma {:induction false} RefusalSticks(src: Source, s: State, parts: seq<(Part, World)>, i: nat)
    requires i < |parts| && !TakeParts(src, s, parts[..i]).1 && Refused(parts[i].0)
    ensures TakeParts(src, s, parts) == (TakeParts(src, s, parts[..i]).0, true)
    decreases |parts|
  {
    if i < |parts| - 1 {
      var front := parts[..|parts| - 1];
      assert front[..i] == parts[..i];
      RefusalSticks(src, s, front, i);
    }
  }

  lemma {:induction false} StopSticks(src: Source, s: State, events: seq<Event>, i: nat)
    requires i < |events| && !TakeEvents(src, s, events[..i]).1
    requires TakeEvent(src, TakeEvents(src, s, events[..i]).0, events[i]).1
    ensures TakeEvents(src, s, events) == TakeEvent(src, TakeEvents(src, s, events[..i]).0, events[i])
    decreases |events|
  {
    if i < |events| - 1 {
      var front := events[..|events| - 1];
      assert front[..i] == events[..i];
      StopSticks(src, s, front, i);
    }
  }
}
