/** The text a fingerprint hashes, read back line by line: which contexts it tells apart
    (rrc/local_context.go). */
module Fingerprint {
  datatype LocalChunk = LocalChunk(index: nat, text: string)

  datatype Context = Context(ids: seq<string>, chunks: seq<LocalChunk>)

  const VERSION := "version:local-context-v1"
  const MESSAGE := "message:"

  function Decimal(n: nat): string {
    if n < 10 then [Digit(n)] else Decimal(n / 10) + [Digit(n % 10)]
  }

  function Digit(d: nat): char
    requires d < 10
  {
    "0123456789"[d]
  }

  function Header(index: nat): string {
    "chunk:" + Decimal(index)
  }

  // ----- The hashed text -----

  function MessageText(ids: seq<string>): string {
    if ids == [] then "" else MESSAGE + ids[0] + ['\n'] + MessageText(ids[1..])
  }

  function ChunkText(cs: seq<LocalChunk>): string {
    if cs == [] then "" else Header(cs[0].index) + ['\n'] + (cs[0].text + ['\n'] + ChunkText(cs[1..]))
  }

  function FingerprintText(c: Context): string {
    VERSION + ['\n'] + (MessageText(c.ids) + ChunkText(c.chunks))
  }

  ghost predicate NumberedFrom(cs: seq<LocalChunk>, k: nat) {
    forall i :: 0 <= i < |cs| ==> cs[i].index == k + i
  }

  /** Chunks are numbered across the whole context. */
  ghost predicate Numbered(cs: seq<LocalChunk>) {
    NumberedFrom(cs, 0)
  }

  /** What serialization hands to the hash: at least one chunk, numbered from zero. */
  ghost predicate Serializable(c: Context) {
    c.chunks != [] && Numbered(c.chunks)
  }

  // ----- Lines -----

  function Break(s: string): (ls: seq<string>)
    ensures |ls| > 0
  {
    if s == "" then [""]
    else if s[0] == '\n' then [""] + Break(s[1..])
    else [[s[0]] + Break(s[1..])[0]] + Break(s[1..])[1..]
  }

  function Join(ls: seq<string>): string
    requires ls != []
  {
    if |ls| == 1 then ls[0] else ls[0] + ['\n'] + Join(ls[1..])
  }

  ghost predicate OneLine(s: string) {
    forall i :: 0 <= i < |s| ==> s[i] != '\n'
  }

  ghost predicate AllOneLine(ls: seq<string>) {
    forall i {:trigger OneLine(ls[i])} :: 0 <= i < |ls| ==> OneLine(ls[i])
  }

  lemma SliceIsOneLine(ls: seq<string>, p: nat, q: nat)
    requires AllOneLine(ls) && p <= q <= |ls|
    ensures AllOneLine(ls[p..q])
  {
    forall i | 0 <= i < q - p ensures OneLine(ls[p..q][i]) { assert ls[p..q][i] == ls[p + i]; }
  }

  lemma Associates<T>(a: seq<T>, b: seq<T>, c: seq<T>)
    ensures (a + b) + c == a + (b + c)
  {
  }

  lemma {:induction false} BreakJoins(s: string)
    ensures AllOneLine(Break(s)) && Join(Break(s)) == s
  {
    if s != "" {
      var ls := Break(s[1..]);
      BreakJoins(s[1..]);
      assert s == [s[0]] + s[1..];
      if s[0] == '\n' {
        PrependLine("", ls);
        assert "" + ['\n'] + s[1..] == s;
      } else {
        PrependChar(s[0], ls);
      }
    }
  }

  lemma PrependChar(c: char, ls: seq<string>)
    requires c != '\n' && ls != [] && AllOneLine(ls)
    ensures var more := [[c] + ls[0]] + ls[1..]; AllOneLine(more) && Join(more) == [c] + Join(ls)
  {
    assert OneLine(ls[0]) && ls == [ls[0]] + ls[1..];
    PrependLine(ls[0], ls[1..]);
    PrependLine([c] + ls[0], ls[1..]);
    if |ls| > 1 {
      var j := Join(ls[1..]);
      Associates([c] + ls[0], ['\n'], j);
      Associates(ls[0], ['\n'], j);
      Associates([c], ls[0], ['\n'] + j);
    }
  }

  lemma PrependLine(line: string, ls: seq<string>)
    requires OneLine(line)
    ensures Join([line] + ls) == if ls == [] then line else line + ['\n'] + Join(ls)
    ensures AllOneLine([line] + ls) <==> AllOneLine(ls)
  {
    var more := [line] + ls;
    assert more[1..] == ls;
    if AllOneLine(ls) {
      forall i | 0 <= i < |more|
        ensures OneLine(more[i])
      {
        assert i > 0 ==> OneLine(ls[i - 1]) && more[i] == ls[i - 1];
      }
    }
    if AllOneLine(more) {
      forall i | 0 <= i < |ls| ensures OneLine(ls[i]) { assert OneLine(more[i + 1]); }
    }
  }

  lemma BreakChar(c: char, s: string)
    ensures Break([c] + s) == if c == '\n' then [""] + Break(s) else [[c] + Break(s)[0]] + Break(s)[1..]
  {
    assert ([c] + s)[1..] == s;
  }

  lemma {:induction false} BreakAtLine(a: string, b: string)
    ensures Break(a + ['\n'] + b) == Break(a) + Break(b)
  {
    if a == "" {
      assert a + ['\n'] + b == ['\n'] + b;
      BreakChar('\n', b);
    } else {
      var c, rest := a[0], a[1..];
      assert a == [c] + rest && a + ['\n'] + b == [c] + (rest + ['\n'] + b);
      BreakAtLine(rest, b);
      BreakChar(c, rest);
      BreakChar(c, rest + ['\n'] + b);
      Prepended(c, Break(rest), Break(b));
    }
  }

  lemma Prepended(c: char, ls: seq<string>, more: seq<string>)
    requires ls != []
    ensures [[c] + (ls + more)[0]] + (ls + more)[1..] == [[c] + ls[0]] + ls[1..] + more
    ensures [""] + (ls + more) == [""] + ls + more
  {
  }

  /** Text put before the first line stays on it. */
  lemma {:induction false} BreakPrefixed(a: string, b: string)
    requires OneLine(a)
    ensures Break(a + b) == [a + Break(b)[0]] + Break(b)[1..]
  {
    if a == "" {
      assert a + b == b && a + Break(b)[0] == Break(b)[0];
    } else {
      assert (a + b)[1..] == a[1..] + b;
      BreakPrefixed(a[1..], b);
      assert [a[0]] + (a[1..] + Break(b)[0]) == a + Break(b)[0];
      assert Break(a + b)[1..] == Break(b)[1..];
    }
  }

  lemma {:induction false} JoinBreaks(ls: seq<string>)
    requires ls != [] && AllOneLine(ls)
    ensures Break(Join(ls)) == ls
  {
    if |ls| == 1 {
      BreakPrefixed(ls[0], "");
      assert ls[0] + "" == ls[0];
    } else {
      JoinBreaks(ls[1..]);
      BreakAtLine(ls[0], Join(ls[1..]));
      BreakPrefixed(ls[0], "");
      assert ls[0] + "" == ls[0] && ls == [ls[0]] + ls[1..];
    }
  }

  // ----- Sharp contexts: no part holds a line that starts the next one -----

  predicate StartsMessage(line: string) {
    |line| >= |MESSAGE| && line[..|MESSAGE|] == MESSAGE
  }

  /** A line that ends the id of a message: another message, or the first chunk. */
  predicate EndsId(line: string) {
    StartsMessage(line) || line == Header(0)
  }

  predicate SharpIdLines(ls: seq<string>) {
    forall p :: 1 <= p < |ls| ==> !EndsId(ls[p])
  }

  predicate SharpId(id: string) {
    SharpIdLines(Break(id))
  }

  /** No line after the first is the header of the next chunk. The last line of the last chunk
      does not matter: nothing follows it. */
  predicate SharpLines(ls: seq<string>, k: nat, last: bool) {
    forall p :: 1 <= p < |ls| && (last ==> p + 1 < |ls|) ==> ls[p] != Header(k + 1)
  }

  predicate SharpText(c: LocalChunk, last: bool) {
    SharpLines(Break(c.text), c.index, last)
  }

  predicate SharpChunks(cs: seq<LocalChunk>) {
    forall i {:trigger cs[i]} :: 0 <= i < |cs| ==> SharpText(cs[i], i == |cs| - 1)
  }

  predicate SharpIds(ids: seq<string>) {
    forall i :: 0 <= i < |ids| ==> SharpId(ids[i])
  }

  predicate Sharp(c: Context) {
    SharpIds(c.ids) && SharpChunks(c.chunks)
  }

  // ----- The lines of a context -----

  function IdLines(id: string): seq<string> {
    [MESSAGE + Break(id)[0]] + Break(id)[1..]
  }

  function MessageLines(ids: seq<string>): seq<string> {
    if ids == [] then [] else IdLines(ids[0]) + MessageLines(ids[1..])
  }

  function ChunkLines(cs: seq<LocalChunk>): seq<string> {
    if cs == [] then [] else [Header(cs[0].index)] + (Break(cs[0].text) + ChunkLines(cs[1..]))
  }

  function Lines(c: Context): seq<string> {
    MessageLines(c.ids) + ChunkLines(c.chunks)
  }

  lemma {:induction false} DecimalIsOneLine(n: nat)
    ensures OneLine(Decimal(n)) && OneLine(Header(n))
  {
    if n >= 10 { DecimalIsOneLine(n / 10); }
  }

  lemma BreakLine(a: string, b: string)
    requires OneLine(a)
    ensures Break(a + ['\n'] + b) == [a] + Break(b)
  {
    BreakAtLine(a, b);
    BreakPrefixed(a, "");
    assert a + "" == a;
  }

  lemma {:induction false} ChunkTextBreaks(cs: seq<LocalChunk>)
    ensures Break(ChunkText(cs)) == ChunkLines(cs) + [""]
  {
    if cs != [] {
      var rest := ChunkText(cs[1..]);
      ChunkTextBreaks(cs[1..]);
      DecimalIsOneLine(cs[0].index);
      BreakLine(Header(cs[0].index), cs[0].text + ['\n'] + rest);
      BreakAtLine(cs[0].text, rest);
    }
  }

  lemma {:induction false} MessageTextBreaks(ids: seq<string>, tail: string)
    ensures Break(MessageText(ids) + tail) == MessageLines(ids) + Break(tail)
  {
    if ids == [] {
      assert "" + tail == tail;
    } else {
      var line, rest := MESSAGE + ids[0], MessageText(ids[1..]);
      MessageTextBreaks(ids[1..], tail);
      Associates(line + ['\n'], rest, tail);
      BreakAtLine(line, rest + tail);
      BreakPrefixed(MESSAGE, ids[0]);
      Associates(IdLines(ids[0]), MessageLines(ids[1..]), Break(tail));
    }
  }

  lemma TextBreaks(c: Context)
    ensures Break(FingerprintText(c)) == [VERSION] + Lines(c) + [""]
  {
    ChunkTextBreaks(c.chunks);
    MessageTextBreaks(c.ids, ChunkText(c.chunks));
    BreakLine(VERSION, MessageText(c.ids) + ChunkText(c.chunks));
  }

  /** The hashed texts of two contexts are equal exactly when their lines are. */
  lemma SameTextSameLines(c: Context, d: Context)
    ensures FingerprintText(c) == FingerprintText(d) <==> Lines(c) == Lines(d)
  {
    TextBreaks(c);
    TextBreaks(d);
    BreakJoins(FingerprintText(c));
    BreakJoins(FingerprintText(d));
    if FingerprintText(c) == FingerprintText(d) {
      var ls := Break(FingerprintText(c));
      assert Lines(c) == ls[1..|ls| - 1] == Lines(d);
    }
  }

  // ----- Reading lines back -----

  /** The first place from `p` on where `stop` holds and another line follows, or the end. */
  function FirstStop(ls: seq<string>, stop: string -> bool, p: nat): (q: nat)
    requires p <= |ls|
    ensures p <= q <= |ls| && (q < |ls| ==> StopsAt(ls, stop, q))
    decreases |ls| - p
  {
    if p == |ls| || StopsAt(ls, stop, p) then p else FirstStop(ls, stop, p + 1)
  }

  predicate StopsAt(ls: seq<string>, stop: string -> bool, p: nat) {
    p + 1 < |ls| && stop(ls[p])
  }

  lemma {:induction false} FirstStopIsFirst(ls: seq<string>, stop: string -> bool, p: nat, r: nat)
    requires p <= |ls|
    ensures p <= r < FirstStop(ls, stop, p) ==> !StopsAt(ls, stop, r)
    decreases |ls| - p
  {
    if p < |ls| && !StopsAt(ls, stop, p) { FirstStopIsFirst(ls, stop, p + 1, r); }
  }

  function NextHeader(k: nat): string -> bool {
    line => line == Header(k + 1)
  }

  /** The chunks in `ls`, the lines after the header of chunk `k`. */
  function ReadChunks(ls: seq<string>, k: nat): seq<LocalChunk>
    requires ls != []
    decreases |ls|
  {
    var p := FirstStop(ls, NextHeader(k), 1);
    if p == |ls| then [LocalChunk(k, Join(ls))]
    else [LocalChunk(k, Join(ls[..p]))] + ReadChunks(ls[p + 1..], k + 1)
  }

  function ReadId(ls: seq<string>): string
    requires ls != [] && StartsMessage(ls[0])
  {
    Join([ls[0][|MESSAGE|..]] + ls[1..])
  }

  function Read(ls: seq<string>): Context
    decreases |ls|
  {
    if ls != [] && StartsMessage(ls[0]) then
      var p := FirstStop(ls, EndsId, 1);
      var c := Read(ls[p..]);
      Context([ReadId(ls[..p])] + c.ids, c.chunks)
    else if |ls| > 1 && ls[0] == Header(0) then Context([], ReadChunks(ls[1..], 0))
    else Context([], [])
  }

  /** Lines that hold no stop after the first are read up to the stop that follows them. */
  lemma StopsAfter(part: seq<string>, tail: seq<string>, stop: string -> bool)
    requires part != [] && |tail| > 1 && stop(tail[0])
    requires forall p :: 1 <= p < |part| ==> !stop(part[p])
    ensures FirstStop(part + tail, stop, 1) == |part|
  {
    var ls := part + tail;
    var q := FirstStop(ls, stop, 1);
    FirstStopIsFirst(ls, stop, 1, |part|);
    assert StopsAt(ls, stop, |part|);
    assert forall j :: 1 <= j < |part| ==> ls[j] == part[j];
  }

  lemma OneIsRead(part: seq<string>, tail: seq<string>, k: nat)
    requires part != [] && tail != [] && forall p :: 1 <= p < |part| ==> part[p] != Header(k + 1)
    ensures ReadChunks(part + ([Header(k + 1)] + tail), k) == [LocalChunk(k, Join(part))] + ReadChunks(tail, k + 1)
  {
    var ls, rest := part + ([Header(k + 1)] + tail), [Header(k + 1)] + tail;
    StopsAfter(part, rest, NextHeader(k));
    assert ls[..|part|] == part && ls[|part| + 1..] == tail;
  }

  /** Sharp chunks are read back from their lines. */
  lemma {:induction false} ChunksAreRead(cs: seq<LocalChunk>, k: nat)
    requires cs != [] && NumberedFrom(cs, k) && SharpChunks(cs)
    ensures ReadChunks(Break(cs[0].text) + ChunkLines(cs[1..]), k) == cs
  {
    var part := Break(cs[0].text);
    BreakJoins(cs[0].text);
    assert cs == [cs[0]] + cs[1..];
    if |cs| == 1 {
      assert SharpText(cs[0], 0 == |cs| - 1);
      assert part + [] == part;
    } else {
      SharpTail(cs, k);
      OneIsRead(part, Break(cs[1].text) + ChunkLines(cs[1..][1..]), k);
      ChunksAreRead(cs[1..], k + 1);
    }
  }

  lemma SharpTail(cs: seq<LocalChunk>, k: nat)
    requires |cs| > 1 && NumberedFrom(cs, k) && SharpChunks(cs)
    ensures NumberedFrom(cs[1..], k + 1) && SharpChunks(cs[1..])
    ensures SharpText(cs[0], false)
  {
    var t := cs[1..];
    forall i | 0 <= i < |t| ensures SharpText(t[i], i == |t| - 1) && t[i].index == k + 1 + i {
      assert t[i] == cs[i + 1] && SharpText(cs[i + 1], i + 1 == |cs| - 1);
    }
  }

  // ----- What is read is sharp -----

  /** `cs` are sharp chunks from the `k`-th on, whose lines after its header are `ls`. */
  ghost predicate Holds(ls: seq<string>, k: nat, cs: seq<LocalChunk>) {
    cs != [] && NumberedFrom(cs, k) && SharpChunks(cs) && ChunkLines(cs) == [Header(k)] + ls
  }

  lemma {:induction false} ReadIsSharp(ls: seq<string>, k: nat)
    requires ls != [] && AllOneLine(ls)
    ensures Holds(ls, k, ReadChunks(ls, k))
    decreases |ls|
  {
    var p := FirstStop(ls, NextHeader(k), 1);
    if p == |ls| {
      EndHolds(ls, k);
    } else {
      SliceIsOneLine(ls, p + 1, |ls|);
      assert ls[p + 1..|ls|] == ls[p + 1..];
      ReadIsSharp(ls[p + 1..], k + 1);
      CutHolds(ls, p, k, ReadChunks(ls[p + 1..], k + 1));
    }
  }

  lemma EndHolds(ls: seq<string>, k: nat)
    requires ls != [] && AllOneLine(ls) && FirstStop(ls, NextHeader(k), 1) == |ls|
    ensures Holds(ls, k, [LocalChunk(k, Join(ls))])
  {
    forall j: nat | 1 <= j < |ls| - 1 ensures ls[j] != Header(k + 1) { FirstStopIsFirst(ls, NextHeader(k), 1, j); }
    assert SharpLines(ls, k, true);
    JoinBreaks(ls);
    LoneChunk(LocalChunk(k, Join(ls)));
  }

  lemma LoneChunk(c: LocalChunk)
    ensures ChunkLines([c]) == [Header(c.index)] + Break(c.text)
    ensures SharpChunks([c]) <==> SharpText(c, true)
  {
    assert [c][1..] == [] && Break(c.text) + [] == Break(c.text);
    assert [c][0] == c;
  }

  lemma CutHolds(ls: seq<string>, p: nat, k: nat, cs: seq<LocalChunk>)
    requires AllOneLine(ls) && 1 <= p < |ls| && FirstStop(ls, NextHeader(k), 1) == p && Holds(ls[p + 1..], k + 1, cs)
    ensures Holds(ls, k, [LocalChunk(k, Join(ls[..p]))] + cs)
  {
    var part, tail := ls[..p], ls[p + 1..];
    SliceIsOneLine(ls, 0, p);
    assert ls[0..p] == part;
    JoinBreaks(part);
    forall j: nat | 1 <= j < p ensures part[j] != Header(k + 1) { FirstStopIsFirst(ls, NextHeader(k), 1, j); }
    assert SharpLines(part, k, false);
    SharpCons(LocalChunk(k, Join(part)), cs, k);
    FirstStopIsFirst(ls, NextHeader(k), 1, p);
    InThree(ls, p);
  }

  lemma InThree(ls: seq<string>, p: nat)
    requires p < |ls|
    ensures ls == ls[..p] + ([ls[p]] + ls[p + 1..])
  {
  }

  lemma SharpCons(c: LocalChunk, cs: seq<LocalChunk>, k: nat)
    requires c.index == k && cs != [] && SharpText(c, false) && NumberedFrom(cs, k + 1) && SharpChunks(cs)
    ensures NumberedFrom([c] + cs, k) && SharpChunks([c] + cs)
    ensures ChunkLines([c] + cs) == [Header(k)] + (Break(c.text) + ChunkLines(cs))
  {
    var t := [c] + cs;
    assert t[1..] == cs;
    forall i | 0 <= i < |t| ensures SharpText(t[i], i == |t| - 1) && t[i].index == k + i {
      assert i > 0 ==> t[i] == cs[i - 1] && SharpText(cs[i - 1], i - 1 == |cs| - 1);
    }
  }

  // ----- Ids -----

  lemma HeaderIsNoMessage()
    ensures !StartsMessage(Header(0)) && EndsId(Header(0)) && OneLine(MESSAGE)
  {
    assert Decimal(0) == "0";
  }

  lemma IdIsRead(id: string)
    ensures StartsMessage(IdLines(id)[0]) && ReadId(IdLines(id)) == id
  {
    BreakJoins(id);
    assert [Break(id)[0]] + Break(id)[1..] == Break(id);
    assert IdLines(id)[1..] == Break(id)[1..];
  }

  /** Sharp ids are read back from their lines. */
  lemma {:induction false} IdsAreRead(ids: seq<string>, tail: seq<string>)
    requires SharpIds(ids) && |tail| > 1 && tail[0] == Header(0)
    ensures Read(MessageLines(ids) + tail) == Context(ids, ReadChunks(tail[1..], 0))
  {
    HeaderIsNoMessage();
    if ids == [] {
      assert [] + tail == tail;
    } else {
      var part, rest := IdLines(ids[0]), MessageLines(ids[1..]) + tail;
      IdIsRead(ids[0]);
      IdsAreRead(ids[1..], tail);
      MessagesStart(ids[1..], tail);
      assert SharpId(ids[0]);
      StopsAfter(part, rest, EndsId);
      Associates(part, MessageLines(ids[1..]), tail);
      ReadAtId(part, rest);
      assert ids == [ids[0]] + ids[1..];
    }
  }

  lemma ReadAtId(part: seq<string>, rest: seq<string>)
    requires part != [] && StartsMessage(part[0]) && FirstStop(part + rest, EndsId, 1) == |part|
    ensures Read(part + rest) == Context([ReadId(part)] + Read(rest).ids, Read(rest).chunks)
  {
    assert (part + rest)[..|part|] == part && (part + rest)[|part|..] == rest;
  }

  lemma MessagesStart(ids: seq<string>, tail: seq<string>)
    requires |tail| > 1 && EndsId(tail[0])
    ensures var ls := MessageLines(ids) + tail; |ls| > 1 && EndsId(ls[0])
  {
    if ids != [] { IdIsRead(ids[0]); }
  }

  /** Lines that make up a context: messages, then at least one chunk. */
  ghost predicate Readable(ls: seq<string>) {
    && AllOneLine(ls) && |ls| > 1
    && (ls[0] == Header(0) || (StartsMessage(ls[0]) && exists q :: 1 <= q < |ls| - 1 && ls[q] == Header(0)))
  }

  /** The context read is sharp and has the lines it was read from. */
  ghost predicate Settles(ls: seq<string>, c: Context) {
    Serializable(c) && Sharp(c) && Lines(c) == ls
  }

  lemma {:induction false} ReadSettles(ls: seq<string>)
    requires Readable(ls)
    ensures Settles(ls, Read(ls))
    decreases |ls|
  {
    HeaderIsNoMessage();
    if ls[0] == Header(0) {
      ReadIsSharp(ls[1..], 0);
      assert ls == [ls[0]] + ls[1..];
      assert MessageLines([]) + ls == ls;
    } else {
      var p := FirstStop(ls, EndsId, 1);
      TailIsReadable(ls, p);
      ReadSettles(ls[p..]);
      ReadIdIsSharp(ls, p);
      IdCons(ReadId(ls[..p]), Read(ls[p..]));
      assert ls == ls[..p] + ls[p..];
    }
  }

  lemma TailIsReadable(ls: seq<string>, p: nat)
    requires Readable(ls) && StartsMessage(ls[0]) && p == FirstStop(ls, EndsId, 1)
    ensures p < |ls| - 1 && Readable(ls[p..])
  {
    HeaderIsNoMessage();
    var q :| 1 <= q < |ls| - 1 && ls[q] == Header(0);
    FirstStopIsFirst(ls, EndsId, 1, q);
    assert StopsAt(ls, EndsId, q);
    TailFrom(ls, p, q);
  }

  lemma TailFrom(ls: seq<string>, p: nat, q: nat)
    requires AllOneLine(ls) && p <= q < |ls| - 1 && ls[q] == Header(0) && EndsId(ls[p])
    ensures Readable(ls[p..])
  {
    SliceIsOneLine(ls, p, |ls|);
    var tail := ls[p..];
    assert ls[p..|ls|] == tail;
    assert tail[q - p] == ls[q];
    assert tail[0] == ls[p];
    ReadableFrom(tail, q - p);
  }

  lemma ReadableFrom(ls: seq<string>, q: nat)
    requires AllOneLine(ls) && q < |ls| - 1 && ls[q] == Header(0) && EndsId(ls[0])
    ensures Readable(ls)
  {
    HeaderIsNoMessage();
  }

  lemma ReadIdIsSharp(ls: seq<string>, p: nat)
    requires AllOneLine(ls) && ls != [] && StartsMessage(ls[0]) && 1 <= p < |ls| && p == FirstStop(ls, EndsId, 1)
    ensures SharpId(ReadId(ls[..p])) && IdLines(ReadId(ls[..p])) == ls[..p]
  {
    var part := ls[..p];
    SliceIsOneLine(ls, 0, p);
    assert ls[0..p] == part;
    IdIsJoined(part);
    forall j: nat | 1 <= j < p ensures !EndsId(part[j]) { FirstStopIsFirst(ls, EndsId, 1, j); }
    assert SharpIdLines(part);
  }

  lemma IdIsJoined(part: seq<string>)
    requires AllOneLine(part) && part != [] && StartsMessage(part[0])
    ensures IdLines(ReadId(part)) == part
    ensures Break(ReadId(part)) == [part[0][|MESSAGE|..]] + part[1..]
  {
    var first := part[0][|MESSAGE|..];
    var lines := [first] + part[1..];
    assert OneLine(part[0]);
    forall i | 0 <= i < |lines| ensures OneLine(lines[i]) { assert OneLine(part[i]); }
    JoinBreaks(lines);
    assert lines[1..] == part[1..] && MESSAGE + first == part[0];
    assert [part[0]] + part[1..] == part;
  }

  lemma IdCons(id: string, c: Context)
    requires SharpId(id) && Sharp(c)
    ensures var d := Context([id] + c.ids, c.chunks); Sharp(d) && Lines(d) == IdLines(id) + Lines(c)
  {
    var ids := [id] + c.ids;
    assert ids[1..] == c.ids;
    forall i | 0 <= i < |ids| ensures SharpId(ids[i]) { assert i > 0 ==> ids[i] == c.ids[i - 1]; }
  }

  // ----- What a text tells apart -----

  lemma LinesAreReadable(c: Context)
    requires Serializable(c)
    ensures Readable(Lines(c))
  {
    var tail, ls := ChunkLines(c.chunks), Lines(c);
    TextBreaks(c);
    BreakJoins(FingerprintText(c));
    assert forall i :: 0 <= i < |ls| ==> ls[i] == ([VERSION] + ls + [""])[i + 1];
    assert tail[0] == Header(0) && |tail| > 1;
    if c.ids != [] {
      IdIsRead(c.ids[0]);
      assert ls[|MessageLines(c.ids)|] == Header(0);
    }
  }

  /** Every text is the text of exactly one sharp context, the one read back from it. */
  lemma ReadBack(c: Context)
    requires Serializable(c)
    ensures var d := Read(Lines(c)); Serializable(d) && Sharp(d) && FingerprintText(d) == FingerprintText(c)
    ensures Sharp(c) <==> Read(Lines(c)) == c
  {
    LinesAreReadable(c);
    ReadSettles(Lines(c));
    SameTextSameLines(c, Read(Lines(c)));
    if Sharp(c) {
      var tail := ChunkLines(c.chunks);
      IdsAreRead(c.ids, tail);
      ChunksAreRead(c.chunks, 0);
      assert tail[1..] == Break(c.chunks[0].text) + ChunkLines(c.chunks[1..]);
    }
  }

  /** Sharp contexts are told apart by the text that is hashed. */
  lemma TextNamesContext(c: Context, d: Context)
    requires Serializable(c) && Serializable(d) && Sharp(c) && Sharp(d)
    ensures FingerprintText(c) == FingerprintText(d) <==> c == d
  {
    SameTextSameLines(c, d);
    ReadBack(c);
    ReadBack(d);
  }

  /** A context that is not sharp has the text of another one, which is. */
  lemma DullCollides(c: Context) returns (d: Context)
    requires Serializable(c) && !Sharp(c)
    ensures Serializable(d) && Sharp(d) && d != c && FingerprintText(d) == FingerprintText(c)
  {
    ReadBack(c);
    d := Read(Lines(c));
  }

  /** For one: a chunk whose text holds the next header reads like two chunks. */
  lemma OneChunkReadsLikeTwo(ids: seq<string>, a: string, b: string)
    ensures FingerprintText(Context(ids, [LocalChunk(0, a + "\nchunk:1\n" + b)])) ==
            FingerprintText(Context(ids, [LocalChunk(0, a), LocalChunk(1, b)]))
  {
    var one, two := LocalChunk(0, a + "\nchunk:1\n" + b), [LocalChunk(0, a), LocalChunk(1, b)];
    assert Decimal(1) == "1";
    assert a + "\nchunk:1\n" + b == a + ['\n'] + (Header(1) + ['\n'] + b);
    BreakAtLine(a, Header(1) + ['\n'] + b);
    DecimalIsOneLine(1);
    BreakLine(Header(1), b);
    LoneChunk(one);
    LoneChunk(two[1]);
    assert two[1..] == [two[1]];
    SameTextSameLines(Context(ids, [one]), Context(ids, two));
  }
}
