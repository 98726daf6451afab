/** Splitting text into overlapping chunks at natural boundaries (rrc/chunk/split.go). */
module Split {
  datatype Config = Config(maxChars: int, overlapChars: int, estimate: string -> int)

  datatype Chunk = Chunk(index: nat, text: string, byteStart: nat, byteEnd: nat, tokenEst: int)

  // ----- Trimming -----

  predicate Space(c: char) {
    c == ' ' || c == '\t' || c == '\n' || c == '\r' || c as int == 11 || c as int == 12
  }

  /** Number of leading spaces. */
  function Lead(s: string): (n: nat)
    ensures n <= |s| && (forall i :: 0 <= i < n ==> Space(s[i])) && (n < |s| ==> !Space(s[n]))
  {
    if s == [] || !Space(s[0]) then 0 else 1 + Lead(s[1..])
  }

  /** `s` up to its last character that is not a space. */
  function DropTrail(s: string): (r: string)
    ensures r <= s && (forall i :: |r| <= i < |s| ==> Space(s[i])) && (r != [] ==> !Space(r[|r| - 1]))
  {
    if s == [] || !Space(s[|s| - 1]) then s else DropTrail(s[..|s| - 1])
  }

  function Trim(s: string): string {
    DropTrail(s[Lead(s)..])
  }

  /** Once the leading spaces of `s` are gone, position `p` of `s` is in `own` and holds `c`. */
  ghost predicate InTrimmed(s: string, own: string, p: nat, c: char) {
    Lead(s) <= p < Lead(s) + |own| && own[p - Lead(s)] == c
  }

  /** Trimming drops spaces only: every other character keeps its place, `Lead(s)` further left. */
  lemma TrimKeeps(s: string, p: nat)
    requires p < |s| && !Space(s[p])
    ensures InTrimmed(s, Trim(s), p, s[p])
  {
    var rest := s[Lead(s)..];
    assert rest[p - Lead(s)] == s[p];
  }

  lemma TrimShrinks(s: string)
    ensures Lead(s) + |Trim(s)| <= |s|
    ensures Trim(s) != [] ==> !Space(Trim(s)[0]) && !Space(Trim(s)[|Trim(s)| - 1])
  {
    var rest := s[Lead(s)..];
    if Trim(s) != [] { assert Trim(s)[0] == rest[0] == s[Lead(s)]; }
  }

  // ----- Boundaries -----

  /** Break points, strongest first: paragraph, line, six sentence endings, white space. */
  const TIERS: nat := 9

  function Width(tier: nat): nat {
    if tier == 1 || tier == 8 then 1 else 2
  }

  predicate TwoAt(text: string, p: nat, a: char, b: char) {
    p + 1 < |text| && text[p] == a && text[p + 1] == b
  }

  /** A break of the given tier starts at `p`. */
  predicate BreakAt(tier: nat, text: string, p: nat) {
    match tier
    case 0 => TwoAt(text, p, '\n', '\n')
    case 1 => p < |text| && text[p] == '\n'
    case 2 => TwoAt(text, p, '.', ' ')
    case 3 => TwoAt(text, p, '!', ' ')
    case 4 => TwoAt(text, p, '?', ' ')
    case 5 => TwoAt(text, p, '.', '\t')
    case 6 => TwoAt(text, p, '!', '\t')
    case 7 => TwoAt(text, p, '?', '\t')
    case 8 => p < |text| && (text[p] == ' ' || text[p] == '\t')
    case _ => false
  }

  const ENDINGS: seq<string> := ["\n\n", "\n", ". ", "! ", "? ", ".\t", "!\t", "?\t"]

  /** A break of one of the first eight tiers is its ending, spelt out; the last is one blank. */
  lemma BreaksAreSpelt(tier: nat, text: string, p: nat)
    ensures tier < 8 ==>
              Width(tier) == |ENDINGS[tier]| &&
              (BreakAt(tier, text, p) <==>
               p + |ENDINGS[tier]| <= |text| && text[p..p + |ENDINGS[tier]|] == ENDINGS[tier])
    ensures Width(8) == 1 && (BreakAt(8, text, p) <==> p < |text| && text[p] in " \t")
    ensures BreakAt(tier, text, p) ==> tier < TIERS
  {
    if tier < 8 && p + |ENDINGS[tier]| <= |text| {
      var piece := text[p..p + |ENDINGS[tier]|];
      assert piece[0] == text[p] && (|piece| == 2 ==> piece[1] == text[p + 1]);
    }
  }

  /** A break of the tier lies between `lo` and `hi` and starts at `p`. */
  predicate BreakIn(tier: nat, text: string, lo: nat, hi: nat, p: nat) {
    lo <= p && p + Width(tier) <= hi && BreakAt(tier, text, p)
  }

  /** The end of the last break of the tier between `lo` and `hi`; -1 if there is none. */
  function LastBreak(tier: nat, text: string, lo: nat, hi: nat, p: nat): int
    decreases p
  {
    if BreakIn(tier, text, lo, hi, p) then p + Width(tier)
    else if p <= lo then -1
    else LastBreak(tier, text, lo, hi, p - 1)
  }

  lemma {:induction false} LastBreakIsLast(tier: nat, text: string, lo: nat, hi: nat, p: nat)
    ensures var e := LastBreak(tier, text, lo, hi, p);
            && (e >= 0 ==> e - Width(tier) >= 0 && BreakIn(tier, text, lo, hi, e - Width(tier)))
            && (forall q: nat :: q <= p && BreakIn(tier, text, lo, hi, q) ==> q + Width(tier) <= e)
    decreases p
  {
    if !BreakIn(tier, text, lo, hi, p) && p > lo { LastBreakIsLast(tier, text, lo, hi, p - 1); }
  }

  /** Tries the tiers from `tier` on; a mid-word cut at `hi` is the last resort. */
  function Strongest(text: string, lo: nat, hi: nat, tier: nat): nat
    decreases TIERS - tier
  {
    if tier >= TIERS then hi
    else
      var e := LastBreak(tier, text, lo, hi, hi);
      if e >= 0 then e else Strongest(text, lo, hi, tier + 1)
  }

  function FindBoundary(text: string, start: nat, maxEnd: nat, window: nat): nat {
    var minEnd := if maxEnd - window < start then start else maxEnd - window;
    if minEnd >= maxEnd then maxEnd else Strongest(text, minEnd, maxEnd, 0)
  }

  /** `e` ends the last break of the strongest tier that has one, or is `hi` when none has. */
  ghost predicate Boundary(text: string, lo: nat, hi: nat, e: nat, tier: nat) {
    && tier <= TIERS
    && (forall t: nat, q: nat :: t < tier ==> !BreakIn(t, text, lo, hi, q))
    && (if tier == TIERS then e == hi
        else e >= Width(tier) && BreakIn(tier, text, lo, hi, e - Width(tier)) &&
             forall q: nat :: BreakIn(tier, text, lo, hi, q) ==> q + Width(tier) <= e)
  }

  lemma {:induction false} StrongestIsBoundary(text: string, lo: nat, hi: nat, tier: nat) returns (at: nat)
    requires tier <= TIERS && forall t: nat, q: nat :: t < tier ==> !BreakIn(t, text, lo, hi, q)
    ensures Boundary(text, lo, hi, Strongest(text, lo, hi, tier), at)
    decreases TIERS - tier
  {
    if tier == TIERS {
      at := TIERS;
    } else {
      LastBreakIsLast(tier, text, lo, hi, hi);
      if LastBreak(tier, text, lo, hi, hi) >= 0 {
        at := tier;
      } else {
        at := StrongestIsBoundary(text, lo, hi, tier + 1);
      }
    }
  }

  lemma BoundaryInWindow(text: string, start: nat, maxEnd: nat, window: nat)
    requires start < maxEnd <= |text|
    ensures start < FindBoundary(text, start, maxEnd, window) <= maxEnd
  {
    var minEnd := if maxEnd - window < start then start else maxEnd - window;
    if minEnd < maxEnd {
      var at := StrongestIsBoundary(text, minEnd, maxEnd, 0);
    }
  }

  /** Sliding the window forward never moves the boundary back, although a stronger tier may
      take over: a stronger break that the earlier window missed must end beyond it. */
  lemma BoundaryAdvances(text: string, lo: nat, hi: nat, lo': nat, hi': nat)
    requires lo < lo' && hi < hi' && lo < hi && lo' < hi'
    ensures Strongest(text, lo, hi, 0) <= Strongest(text, lo', hi', 0)
  {
    var t := StrongestIsBoundary(text, lo, hi, 0);
    var t' := StrongestIsBoundary(text, lo', hi', 0);
    var e, e' := Strongest(text, lo, hi, 0), Strongest(text, lo', hi', 0);
    if t < TIERS && e - Width(t) >= lo' {
      assert BreakIn(t, text, lo', hi', e - Width(t));
    }
    if t' < TIERS && e' <= hi {
      assert BreakIn(t', text, lo, hi, e' - Width(t'));
    }
  }

  // ----- Chunks -----

  /** Chunk length after defaults; at least one character. */
  function MaxChars(cfg: Config): (n: nat)
    ensures n >= 1
  {
    if cfg.maxChars <= 0 then 2000 else cfg.maxChars
  }

  /** Overlap after defaults; always short of a whole chunk. */
  function Overlap(cfg: Config): (n: nat)
    ensures n < MaxChars(cfg)
  {
    if cfg.overlapChars < 0 then 0
    else if cfg.overlapChars >= MaxChars(cfg) then MaxChars(cfg) / 4 else cfg.overlapChars
  }

  /** Where the piece that starts at `i` ends. */
  function CutEnd(text: string, i: nat, max: nat): nat {
    if i + max >= |text| then |text| else FindBoundary(text, i, i + max, max / 2)
  }

  lemma CutIsInWindow(text: string, i: nat, max: nat)
    requires max >= 1 && i < |text|
    ensures i < CutEnd(text, i, max) <= |text| && CutEnd(text, i, max) - i <= max
  {
    if i + max < |text| { BoundaryInWindow(text, i, i + max, max / 2); }
  }

  /** A later start never ends earlier. */
  lemma CutAdvances(text: string, i: nat, i': nat, max: nat)
    requires i < i' && max >= 1 && i < |text|
    ensures CutEnd(text, i, max) <= CutEnd(text, i', max)
  {
    CutIsInWindow(text, i, max);
    if i' + max < |text| && max > 1 {
      FindsStrongest(text, i, max);
      FindsStrongest(text, i', max);
      BoundaryAdvances(text, i + max - max / 2, i + max, i' + max - max / 2, i' + max);
    }
  }

  lemma FindsStrongest(text: string, i: nat, max: nat)
    requires max > 1
    ensures FindBoundary(text, i, i + max, max / 2) == Strongest(text, i + max - max / 2, i + max, 0)
  {
  }

  /** Where the piece after the one from `i` to `end` starts: overlap, but always forward. */
  function NextStart(cfg: Config, i: nat, end: nat): (next: nat)
    ensures next > i
  {
    if end - Overlap(cfg) <= i then i + 1 else end - Overlap(cfg)
  }

  /** A walk over a text: where the piece from each start ends, where the next one starts, and the
      chunk, if any, that a piece gives under a number. */
  datatype Plan = Plan(size: nat, cut: nat -> nat, next: (nat, nat) -> nat, piece: (nat, nat, nat) -> seq<Chunk>)

  ghost predicate Advances(w: Plan) {
    && (forall i: nat :: i < w.size ==> i < w.cut(i) <= w.size)
    && (forall i: nat, end: nat :: w.next(i, end) > i)
  }

  /** The chunks of the pieces from `i` on, numbered from `count`. */
  ghost function ChunksFrom(w: Plan, i: nat, count: nat): seq<Chunk>
    requires Advances(w)
    decreases w.size - i
  {
    if i >= w.size then []
    else
      var end := w.cut(i);
      var here := w.piece(i, end, count);
      if end >= w.size then here else here + ChunksFrom(w, w.next(i, end), count + |here|)
  }

  /** The chunk between `i` and `end`, none if it is blank. */
  ghost function Here(text: string, cfg: Config, i: nat, end: nat, count: nat): seq<Chunk> {
    if !(i <= end <= |text|) || Trim(text[i..end]) == "" then []
    else [Chunk(count, Trim(text[i..end]), i, end, cfg.estimate(Trim(text[i..end])))]
  }

  /** Cut at the boundaries the tiers give, overlap as configured, drop blank pieces. */
  ghost function PlanOf(text: string, cfg: Config): (w: Plan)
    ensures w.size == |text| && Advances(w)
    ensures forall i: nat :: w.cut(i) == CutEnd(text, i, MaxChars(cfg))
    ensures forall i: nat, end: nat :: w.next(i, end) == NextStart(cfg, i, end)
    ensures forall i: nat, end: nat, count: nat :: w.piece(i, end, count) == Here(text, cfg, i, end, count)
  {
    CutsAdvance(text, cfg);
    Plan(|text|,
         (i: nat) => CutEnd(text, i, MaxChars(cfg)),
         (i: nat, end: nat) => NextStart(cfg, i, end),
         (i: nat, end: nat, count: nat) => Here(text, cfg, i, end, count))
  }

  lemma CutsAdvance(text: string, cfg: Config)
    ensures forall i: nat :: i < |text| ==> i < CutEnd(text, i, MaxChars(cfg)) <= |text|
  {
    forall i: nat | i < |text| ensures i < CutEnd(text, i, MaxChars(cfg)) <= |text| {
      CutIsInWindow(text, i, MaxChars(cfg));
    }
  }

  // ----- Where the chunks lie -----

  /** The chunk reaches the end of the text, or fills less than a window whose second half it leaves at
      the last break of the strongest tier there, or at its end when there is none. */
  ghost predicate LeavesAtBoundary(text: string, cfg: Config, c: Chunk) {
    var max := if cfg.maxChars <= 0 then 2000 else cfg.maxChars;
    if c.byteStart + max >= |text| then c.byteEnd == |text|
    else if max == 1 then c.byteEnd == c.byteStart + 1
    else EndsBreak(text, c.byteStart + max - max / 2, c.byteStart + max, c.byteEnd)
  }

  ghost predicate EndsBreak(text: string, lo: nat, hi: nat, e: nat) {
    exists tier: nat :: Boundary(text, lo, hi, e, tier)
  }

  /** Where the piece after a chunk starts: the configured overlap before its end, a quarter of a window
      if that were a whole window, and always past its start. */
  ghost function Resumes(cfg: Config, c: Chunk): int {
    var max := if cfg.maxChars <= 0 then 2000 else cfg.maxChars;
    var overlap := if cfg.overlapChars < 0 then 0
                   else if cfg.overlapChars >= max then max / 4 else cfg.overlapChars;
    if c.byteEnd - overlap <= c.byteStart then c.byteStart + 1 else c.byteEnd - overlap
  }

  /** `c` starts at `i`, or the piece there is blank. */
  ghost predicate StartsAt(text: string, cfg: Config, i: int, c: Chunk) {
    && 0 <= i <= c.byteStart
    && (i < c.byteStart ==> i < CutEnd(text, i, MaxChars(cfg)) <= |text| &&
                            Trim(text[i..CutEnd(text, i, MaxChars(cfg))]) == "")
  }

  /** Every chunk leaves at a boundary, and each one starts where the one before it resumes unless the
      piece there is blank. */
  ghost predicate Laid(text: string, cfg: Config, chunks: seq<Chunk>) {
    && (forall k :: 0 <= k < |chunks| ==> LeavesAtBoundary(text, cfg, chunks[k]))
    && (forall k, j {:trigger chunks[k], chunks[j]} :: 0 <= k && j == k + 1 && j < |chunks| ==>
          StartsAt(text, cfg, Resumes(cfg, chunks[k]), chunks[j]))
  }

  lemma CutLeavesAtBoundary(text: string, cfg: Config, i: nat, c: Chunk)
    requires i < |text| && c.byteStart == i && c.byteEnd == CutEnd(text, i, MaxChars(cfg))
    ensures LeavesAtBoundary(text, cfg, c)
  {
    var max := MaxChars(cfg);
    if i + max < |text| && max > 1 {
      FindsStrongest(text, i, max);
      var at := StrongestIsBoundary(text, i + max - max / 2, i + max, 0);
    }
  }

  /** At `i`, `w` cuts, resumes and emits as the split does. */
  ghost predicate PlansAt(text: string, cfg: Config, w: Plan, i: nat, count: nat) {
    var end := CutEnd(text, i, MaxChars(cfg));
    w.cut(i) == end && w.next(i, end) == NextStart(cfg, i, end) &&
        w.piece(i, end, count) == Here(text, cfg, i, end, count)
  }

  ghost predicate Plans(text: string, cfg: Config, w: Plan) {
    && w.size == |text| && Advances(w)
    && forall i: nat, count: nat {:trigger PlansAt(text, cfg, w, i, count)} :: PlansAt(text, cfg, w, i, count)
  }

  ghost predicate LaidFrom(text: string, cfg: Config, i: nat, chunks: seq<Chunk>) {
    Laid(text, cfg, chunks) && (chunks != [] ==> StartsAt(text, cfg, i, chunks[0]))
  }

  /** The chunks from `i` on are laid, the first of them from `i`. */
  lemma {:induction false} ChunksAreLaid(text: string, cfg: Config, w: Plan, i: nat, count: nat)
    requires Plans(text, cfg, w) && i < |text|
    ensures LaidFrom(text, cfg, i, ChunksFrom(w, i, count))
    decreases |text| - i
  {
    var end := CutEnd(text, i, MaxChars(cfg));
    PieceIs(text, cfg, i, count);
    FromHere(text, cfg, w, i, count);
    var here, rest := Here(text, cfg, i, end, count), [];
    if end < |text| {
      rest := ChunksFrom(w, NextStart(cfg, i, end), count + |here|);
      ChunksAreLaid(text, cfg, w, NextStart(cfg, i, end), count + |here|);
    }
    LaidOn(text, cfg, i, end, here, rest);
    assert here + [] == here;
  }

  lemma FromHere(text: string, cfg: Config, w: Plan, i: nat, count: nat)
    requires Plans(text, cfg, w) && i < |text|
    ensures var end := CutEnd(text, i, MaxChars(cfg));
            var here := Here(text, cfg, i, end, count);
            ChunksFrom(w, i, count) ==
            if end >= |text| then here else here + ChunksFrom(w, NextStart(cfg, i, end), count + |here|)
  {
    assert PlansAt(text, cfg, w, i, count);
    FromPlan(w, i, count);
  }

  lemma FromPlan(w: Plan, i: nat, count: nat)
    requires Advances(w) && i < w.size
    ensures var end := w.cut(i);
            var here := w.piece(i, end, count);
            ChunksFrom(w, i, count) ==
            if end >= w.size then here else here + ChunksFrom(w, w.next(i, end), count + |here|)
  {
  }

  lemma PieceIs(text: string, cfg: Config, i: nat, count: nat)
    requires i < |text|
    ensures i < CutEnd(text, i, MaxChars(cfg)) <= |text|
    ensures var end := CutEnd(text, i, MaxChars(cfg));
            var here := Here(text, cfg, i, end, count);
            if here == [] then Trim(text[i..end]) == ""
            else |here| == 1 && here[0].byteStart == i && here[0].byteEnd == end && LeavesAtBoundary(text, cfg, here[0])
  {
    CutIsInWindow(text, i, MaxChars(cfg));
    var here := Here(text, cfg, i, CutEnd(text, i, MaxChars(cfg)), count);
    if here != [] { CutLeavesAtBoundary(text, cfg, i, here[0]); }
  }

  lemma SplitIsLaid(text: string, cfg: Config)
    requires text != ""
    ensures LaidFrom(text, cfg, 0, ChunksFrom(PlanOf(text, cfg), 0, 0))
  {
    ChunksAreLaid(text, cfg, PlanOf(text, cfg), 0, 0);
  }

  lemma LaidOn(text: string, cfg: Config, i: nat, end: nat, here: seq<Chunk>, rest: seq<Chunk>)
    requires i < |text| && end == CutEnd(text, i, MaxChars(cfg)) && i < end <= |text|
    requires LaidFrom(text, cfg, NextStart(cfg, i, end), rest)
    requires here == [] ==> Trim(text[i..end]) == ""
    requires here != [] ==> |here| == 1 && here[0].byteStart == i && here[0].byteEnd == end &&
                            LeavesAtBoundary(text, cfg, here[0])
    ensures LaidFrom(text, cfg, i, here + rest)
  {
    var all := here + rest;
    if here == [] {
      assert all == rest;
    } else {
      assert Resumes(cfg, here[0]) == NextStart(cfg, i, end);
      assert all[0] == here[0] && forall k :: 1 <= k < |all| ==> all[k] == rest[k - 1];
    }
  }

  /** What is still to be cut completes what has been. */
  ghost predicate Remaining(w: Plan, chunks: seq<Chunk>, i: nat)
    requires Advances(w)
  {
    ChunksFrom(w, 0, 0) == chunks + ChunksFrom(w, i, |chunks|)
  }

  lemma CutRemaining(w: Plan, chunks: seq<Chunk>, i: nat)
    requires Advances(w) && i < w.size && Remaining(w, chunks, i)
    ensures var more := chunks + w.piece(i, w.cut(i), |chunks|);
            if w.cut(i) < w.size then Remaining(w, more, w.next(i, w.cut(i))) else more == ChunksFrom(w, 0, 0)
  {
    var here := w.piece(i, w.cut(i), |chunks|);
    if w.cut(i) < w.size {
      Regroup(chunks, here, ChunksFrom(w, w.next(i, w.cut(i)), |chunks + here|));
    }
  }

  lemma Regroup(a: seq<Chunk>, b: seq<Chunk>, c: seq<Chunk>)
    ensures a + (b + c) == (a + b) + c
  {
  }

  /** The character at `p` stands in the chunk's own text. */
  ghost predicate Holds(text: string, c: Chunk, p: nat)
    requires p < |text| && c.byteStart <= c.byteEnd <= |text|
  {
    c.byteStart <= p && InTrimmed(text[c.byteStart..c.byteEnd], c.text, p - c.byteStart, text[p])
  }

  /** A chunk is the trimmed, non-empty text of its byte range, within the size limit. */
  ghost predicate WellCut(text: string, cfg: Config, c: Chunk) {
    && c.byteStart < c.byteEnd <= |text| && c.byteEnd - c.byteStart <= MaxChars(cfg)
    && c.text == Trim(text[c.byteStart..c.byteEnd]) && 0 < |c.text| <= MaxChars(cfg)
    && c.tokenEst == cfg.estimate(c.text)
  }

  ghost predicate Held(text: string, cfg: Config, chunks: seq<Chunk>, p: nat)
    requires p < |text|
  {
    exists k {:trigger HeldBy(text, cfg, chunks[k], p)} :: 0 <= k < |chunks| && HeldBy(text, cfg, chunks[k], p)
  }

  ghost predicate HeldBy(text: string, cfg: Config, c: Chunk, p: nat)
    requires p < |text|
  {
    WellCut(text, cfg, c) && Holds(text, c, p)
  }

  /** Indices count up, starts strictly advance, ends never go back. */
  ghost predicate InOrder(chunks: seq<Chunk>) {
    && (forall k :: 0 <= k < |chunks| ==> chunks[k].index == k)
    && (forall j, k :: 0 <= j < k < |chunks| ==>
        chunks[j].byteStart < chunks[k].byteStart && chunks[j].byteEnd <= chunks[k].byteEnd)
  }

  ghost predicate SplitPromise(text: string, cfg: Config, chunks: seq<Chunk>) {
    && |chunks| <= |text| && InOrder(chunks)
    && (forall k :: 0 <= k < |chunks| ==> WellCut(text, cfg, chunks[k]))
    // Nothing but white space is lost.
    && (forall p {:trigger Held(text, cfg, chunks, p)} :: 0 <= p < |text| && !Space(text[p]) ==>
        Held(text, cfg, chunks, p))
  }

  /** The chunks cut so far, the last cut having ended at `done`. */
  ghost predicate Cut(text: string, cfg: Config, chunks: seq<Chunk>, i: nat, done: nat) {
    && |chunks| <= i && done <= |text| && InOrder(chunks)
    && (forall k :: 0 <= k < |chunks| ==> WellCut(text, cfg, chunks[k]))
    && (forall k :: 0 <= k < |chunks| ==> chunks[k].byteStart < i && chunks[k].byteEnd <= done)
    && (forall p {:trigger Held(text, cfg, chunks, p)} :: 0 <= p < done && !Space(text[p]) ==>
        Held(text, cfg, chunks, p))
  }

  lemma CutPiece(text: string, cfg: Config, chunks: seq<Chunk>, i: nat, end: nat, p: nat, c: Chunk)
    requires i <= p < end <= |text| && !Space(text[p]) && c.byteStart == i && c.byteEnd == end &&
             c.text == Trim(text[i..end])
    requires WellCut(text, cfg, c)
    ensures Held(text, cfg, chunks + [c], p)
  {
    assert (chunks + [c])[|chunks|] == c;
    assert HeldBy(text, cfg, c, p) by { PieceHolds(text, p, c); }
  }

  lemma PieceHolds(text: string, p: nat, c: Chunk)
    requires c.byteStart <= p < c.byteEnd <= |text| && !Space(text[p]) && c.text == Trim(text[c.byteStart..c.byteEnd])
    ensures Holds(text, c, p)
  {
    var piece, q := text[c.byteStart..c.byteEnd], p - c.byteStart;
    SliceAt(text, c.byteStart, c.byteEnd, q);
    StaysTrimmed(piece, c.text, q, text[p]);
  }

  lemma SliceAt(text: string, lo: nat, hi: nat, q: nat)
    requires lo <= hi <= |text| && lo + q < hi
    ensures text[lo..hi][q] == text[lo + q]
  {
  }

  lemma StaysTrimmed(piece: string, own: string, q: nat, c: char)
    requires q < |piece| && piece[q] == c && !Space(c) && own == Trim(piece)
    ensures InTrimmed(piece, own, q, c)
  {
    TrimKeeps(piece, q);
  }

  lemma CutMore(text: string, cfg: Config, chunks: seq<Chunk>, i: nat, done: nat, end: nat, c: Chunk)
    requires Cut(text, cfg, chunks, i, done) && i <= done <= end && WellCut(text, cfg, c)
    requires c.index == |chunks| && c.byteStart == i && c.byteEnd == end
    ensures Cut(text, cfg, chunks + [c], i + 1, end)
  {
    var more := chunks + [c];
    OrderMore(chunks, i, done, c);
    forall k | 0 <= k < |more| ensures WellCut(text, cfg, more[k]) {
      assert k < |chunks| ==> WellCut(text, cfg, chunks[k]);
    }
    forall p | 0 <= p < end && !Space(text[p]) ensures Held(text, cfg, more, p) {
      if p < done {
        HeldLonger(text, cfg, chunks, c, p);
      } else {
        CutPiece(text, cfg, chunks, i, end, p, c);
      }
    }
  }

  lemma OrderMore(chunks: seq<Chunk>, i: nat, done: nat, c: Chunk)
    requires InOrder(chunks) && forall k :: 0 <= k < |chunks| ==> chunks[k].byteStart < i && chunks[k].byteEnd <= done
    requires c.index == |chunks| && c.byteStart == i && c.byteEnd >= done
    ensures InOrder(chunks + [c])
    ensures forall k :: 0 <= k < |chunks + [c]| ==>
                (chunks + [c])[k].byteStart < i + 1 && (chunks + [c])[k].byteEnd <= c.byteEnd
  {
  }

  lemma HeldLonger(text: string, cfg: Config, chunks: seq<Chunk>, c: Chunk, p: nat)
    requires p < |text| && Held(text, cfg, chunks, p)
    ensures Held(text, cfg, chunks + [c], p)
  {
    var k :| 0 <= k < |chunks| && HeldBy(text, cfg, chunks[k], p);
    assert HeldBy(text, cfg, (chunks + [c])[k], p);
  }

  /** A piece of white space needs no chunk. */
  lemma CutBlank(text: string, cfg: Config, chunks: seq<Chunk>, i: nat, done: nat, end: nat)
    requires Cut(text, cfg, chunks, i, done) && i <= done <= end <= |text| && Trim(text[i..end]) == []
    ensures Cut(text, cfg, chunks, i + 1, end)
  {
    forall p | done <= p < end ensures Space(text[p]) {
      assert text[i..end][p - i] == text[p];
    }
  }

  lemma CutLater(text: string, cfg: Config, chunks: seq<Chunk>, i: nat, i': nat, done: nat)
    requires Cut(text, cfg, chunks, i, done) && i <= i'
    ensures Cut(text, cfg, chunks, i', done)
  {
  }

  /** Appends the piece between `i` and `end` unless it is blank. */
  method Emit(text: string, cfg: Config, chunks0: seq<Chunk>, i: nat, ghost done: nat, end: nat)
    returns (chunks: seq<Chunk>)
    requires Cut(text, cfg, chunks0, i, done) && i <= done <= end <= |text| && i < end && end - i <= MaxChars(cfg)
    ensures Cut(text, cfg, chunks, i + 1, end)
    ensures chunks == chunks0 + Here(text, cfg, i, end, |chunks0|)
  {
    var piece := Trim(text[i..end]);
    TrimShrinks(text[i..end]);
    chunks := chunks0;
    if piece != "" {
      var c := Chunk(|chunks|, piece, i, end, cfg.estimate(piece));
      CutMore(text, cfg, chunks, i, done, end, c);
      chunks := chunks + [c];
    } else {
      CutBlank(text, cfg, chunks, i, done, end);
    }
  }

  method Split(raw: string, cfg: Config) returns (chunks: seq<Chunk>)
    ensures SplitPromise(Trim(raw), cfg, chunks)
    // Pieces are cut at the boundaries the tiers give and overlap as configured.
    ensures chunks == ChunksFrom(PlanOf(Trim(raw), cfg), 0, 0)
    ensures LaidFrom(Trim(raw), cfg, 0, chunks)
    ensures chunks == [] <==> Trim(raw) == []
    ensures 0 < |Trim(raw)| <= MaxChars(cfg) ==>
                chunks == [Chunk(0, Trim(raw), 0, |Trim(raw)|, cfg.estimate(Trim(raw)))]
  {
    var text := Trim(raw);
    chunks := [];
    if text == "" { return; }
    TrimShrinks(raw);
    SplitIsLaid(text, cfg);
    if |text| <= MaxChars(cfg) {
      chunks := [Chunk(0, text, 0, |text|, cfg.estimate(text))];
      WholeText(text, cfg, chunks[0]);
    } else {
      chunks := SplitLong(text, cfg);
      assert Held(text, cfg, chunks, 0);
    }
  }

  /** Walks the windows of a text that does not fit one chunk. */
  method SplitLong(text: string, cfg: Config) returns (chunks: seq<Chunk>)
    requires |text| > MaxChars(cfg)
    ensures SplitPromise(text, cfg, chunks) && chunks == ChunksFrom(PlanOf(text, cfg), 0, 0)
  {
    chunks := [];
    var i, done, more := 0, 0, true;
    ghost var w := PlanOf(text, cfg);
    assert Remaining(w, [], 0) by { assert [] + ChunksFrom(w, 0, 0) == ChunksFrom(w, 0, 0); }
    while more
      invariant 0 <= i <= done <= |text| && (more ==> i < |text| && done <= CutEnd(text, i, MaxChars(cfg)))
      invariant !more ==> done == |text| && Cut(text, cfg, chunks, |text|, done) && chunks == ChunksFrom(w, 0, 0)
      invariant more ==> Cut(text, cfg, chunks, i, done) && Remaining(w, chunks, i)
      decreases more, |text| - i
    {
      var end := CutEnd(text, i, MaxChars(cfg));
      CutIsInWindow(text, i, MaxChars(cfg));
      CutRemaining(w, chunks, i);
      chunks := Emit(text, cfg, chunks, i, done, end);
      done := end;
      if end >= |text| {
        CutLater(text, cfg, chunks, i + 1, |text|, done);
        more := false;
      } else {
        var next := NextStart(cfg, i, end);
        CutAdvances(text, i, next, MaxChars(cfg));
        CutLater(text, cfg, chunks, i + 1, next, done);
        i := next;
      }
    }
  }

  lemma WholeText(text: string, cfg: Config, c: Chunk)
    requires 0 < |text| <= MaxChars(cfg) && !Space(text[0]) && !Space(text[|text| - 1])
    requires c == Chunk(0, text, 0, |text|, cfg.estimate(text))
    ensures SplitPromise(text, cfg, [c]) && [c] == ChunksFrom(PlanOf(text, cfg), 0, 0)
  {
    assert text[0..|text|] == text && Trim(text) == text by { assert text[0..] == text; }
    assert Lead(text) == 0 && text[0..] == text && DropTrail(text) == text;
    assert WellCut(text, cfg, c);
    CutMore(text, cfg, [], 0, 0, |text|, c);
    assert [] + [c] == [c] && Here(text, cfg, 0, |text|, 0) == [c];
    assert PlanOf(text, cfg).cut(0) == |text|;
  }
}
