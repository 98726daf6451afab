/** Best-first backward traversal from the prompt through scored prerequisite edges
    (rrc/selection.go). */
module Selection {
  import opened Dag
  import Detect

  datatype Entry = Entry(
    id: string,
    score: real,
    hopDepth: nat,
    via: seq<Edge>,
    threadID: string,
    crossThread: bool,
    provenanceWeight: real)

  /** One traversal: the graph, the prompt and its thread, the scope, the precision stance and
      the event's measured noise floor. */
  datatype Walk = Walk(
    backward: map<string, seq<Edge>>,
    prompt: string,
    thread: string,
    scope: Scope,
    lossRatio: real,
    floor: seq<real>)

  /** Edges the traversal may follow: in scope, and not provenance. */
  predicate Followable(w: Walk, e: Edge) {
    e.source != EdgeSource.Provenance && ScopeAllows(e, w.thread, w.scope)
  }

  ghost predicate Eligible(w: Walk, e: Edge) {
    e in Lookup(w.backward, e.to) && Followable(w, e)
  }

  /** The adjacency index files each edge under its target. */
  ghost predicate Indexed(w: Walk) {
    forall id, e :: e in Lookup(w.backward, id) ==> e.to == id
  }

  /** Acceptance with expected value at least the stance plus the price of the tokens
      (rrc/acceptance.go). */
  predicate Accept(p: real, lossRatio: real, mu: real, tokens: nat) {
    p >= lossRatio + mu * tokens as real
  }

  /** With the loss ratio of a gain and a harm, and the token price on their scale, a candidate is
      accepted exactly when its expected value covers its tokens. */
  lemma AcceptIsExpectedValue(p: real, gain: real, harm: real, price: real, tokens: nat)
    requires gain + harm > 0.0
    ensures Accept(p, harm / (gain + harm), price / (gain + harm), tokens) <==>
            p * gain - (1.0 - p) * harm >= price * tokens as real
  {
    var whole, n := gain + harm, tokens as real;
    assert price / whole * n == price * n / whole;
    assert harm / whole + price * n / whole == (harm + price * n) / whole;
    DivideMeans(harm + price * n, whole, p);
    assert p * whole - harm == p * gain - (1.0 - p) * harm;
  }

  lemma DivideMeans(a: real, whole: real, p: real)
    requires whole > 0.0
    ensures p >= a / whole <==> p * whole >= a
  {
    var q := a / whole;
    assert q * whole == a;
    if p >= q { assert (p - q) * whole >= 0.0; } else { assert (q - p) * whole > 0.0; }
  }

  /** Hop-1 currency: this event's own verdict. */
  function SeedScore(e: Edge): real {
    e.score
  }

  /** Hop-2+ currency: the recorded observation read by this event's floor. */
  function RelationalScore(w: Walk, e: Edge): real {
    if |w.floor| >= Detect.MIN_REFERENCE_SAMPLE then
      var p := Detect.RankP(e.crossEncoderScore, w.floor);
      if p > Detect.BeatAll(w.floor) then 0.0 else Detect.Confidence(p)
    else e.crossEncoderScore
  }

  /** The score a hop multiplies onto the chain before it. */
  function Decay(edgeScore: real, score: real): real {
    edgeScore * score
  }

  // ----- Chains: the declarative meaning of a selection -----

  /** The traversal enters along `e`. */
  ghost predicate AcceptedSeed(w: Walk, e: Edge) {
    Eligible(w, e) && e.to == w.prompt && SeedScore(e) >= w.lossRatio
  }

  /** The traversal goes on along `e` from its target. */
  ghost predicate AcceptedStep(w: Walk, e: Edge) {
    Eligible(w, e) && RelationalScore(w, e) >= w.lossRatio
  }

  /** `via` leads from the prompt outward along accepted edges and never comes back to it. */
  ghost predicate Chain(w: Walk, via: seq<Edge>) {
    && via != []
    && via[|via| - 1].from != w.prompt
    && (if |via| == 1 then AcceptedSeed(w, via[0])
        else AcceptedStep(w, via[|via| - 1]) && Chain(w, via[..|via| - 1]) && via[|via| - 1].to == via[|via| - 2].from)
  }

  ghost function End(via: seq<Edge>): string
    requires via != []
  {
    via[|via| - 1].from
  }

  /** Entry verdict at hop 1 times current relational strengths beyond. */
  ghost function ChainScore(w: Walk, via: seq<Edge>): real
    requires via != []
  {
    if |via| == 1 then SeedScore(via[0])
    else Decay(RelationalScore(w, via[|via| - 1]), ChainScore(w, via[..|via| - 1]))
  }

  /** Product of the raw observations along a chain. */
  ghost function RawEvidence(via: seq<Edge>): real {
    if via == [] then 1.0
    else Decay(via[|via| - 1].crossEncoderScore, RawEvidence(via[..|via| - 1]))
  }

  /** No accepted hop after the first strengthens a chain. */
  ghost predicate Damped(w: Walk) {
    0.0 <= w.lossRatio && forall e {:trigger AcceptedStep(w, e)} :: AcceptedStep(w, e) ==> RelationalScore(w, e) <= 1.0
  }

  lemma DecayShrinks(a: real, s: real)
    requires 0.0 <= a <= 1.0 && 0.0 <= s <= 1.0
    ensures 0.0 <= Decay(a, s) <= s && Decay(a, s) <= a
  {
    ProductNonNegative(1.0 - a, s);
    ProductNonNegative(a, 1.0 - s);
    ProductNonNegative(a, s);
    assert (1.0 - a) * s == s - a * s;
    assert a * (1.0 - s) == a - a * s;
  }

  lemma ProductNonNegative(a: real, b: real)
    requires 0.0 <= a && 0.0 <= b
    ensures 0.0 <= a * b
  {
  }

  lemma DecayMonotone(a: real, s: real, t: real)
    requires 0.0 <= a && s <= t
    ensures Decay(a, s) <= Decay(a, t)
  {
    ProductNonNegative(a, t - s);
    assert a * (t - s) == a * t - a * s;
  }

  /** Lengthening a chain never strengthens it. */
  lemma {:induction false} ChainScoreFalls(w: Walk, via: seq<Edge>)
    requires Damped(w) && Chain(w, via)
    ensures 0.0 <= ChainScore(w, via)
    ensures |via| > 1 ==> ChainScore(w, via) <= ChainScore(w, via[..|via| - 1])
  {
    if |via| > 1 {
      ChainScoreFalls(w, via[..|via| - 1]);
      DampedStep(w, via[|via| - 1], ChainScore(w, via[..|via| - 1]));
    }
  }

  lemma DampedStep(w: Walk, e: Edge, score: real)
    requires Damped(w) && AcceptedStep(w, e) && 0.0 <= score
    ensures 0.0 <= Decay(RelationalScore(w, e), score) <= score
  {
    var a := RelationalScore(w, e);
    ProductNonNegative(1.0 - a, score);
    ProductNonNegative(a, score);
    assert (1.0 - a) * score == score - a * score;
  }

  // ----- Acceptance costs nothing among probabilities -----

  /** `via` leads from the prompt outward along eligible edges, accepted or not. */
  ghost predicate Route(w: Walk, via: seq<Edge>) {
    && via != []
    && via[|via| - 1].from != w.prompt
    && Eligible(w, via[|via| - 1])
    && (if |via| == 1 then via[0].to == w.prompt
        else Route(w, via[..|via| - 1]) && via[|via| - 1].to == via[|via| - 2].from)
  }

  /** Stored verdicts and current readings are probabilities. */
  ghost predicate InRange(w: Walk) {
    && 0.0 <= w.lossRatio
    && (forall e :: Eligible(w, e) ==> 0.0 <= SeedScore(e) <= 1.0 && 0.0 <= RelationalScore(w, e) <= 1.0)
  }

  lemma {:induction false} RouteScoreInRange(w: Walk, via: seq<Edge>)
    requires InRange(w) && Route(w, via)
    ensures 0.0 <= ChainScore(w, via) <= 1.0
  {
    assert Eligible(w, via[|via| - 1]);
    if |via| > 1 {
      RouteScoreInRange(w, via[..|via| - 1]);
      DecayShrinks(RelationalScore(w, via[|via| - 1]), ChainScore(w, via[..|via| - 1]));
    }
  }

  /** Among probabilities a route that clears the stance is accepted edge by edge. */
  lemma {:induction false} RouteIsChain(w: Walk, via: seq<Edge>)
    requires InRange(w) && Route(w, via) && ChainScore(w, via) >= w.lossRatio
    ensures Chain(w, via) && Damped(w)
  {
    if |via| > 1 {
      var front := via[..|via| - 1];
      RouteScoreInRange(w, front);
      DecayShrinks(RelationalScore(w, via[|via| - 1]), ChainScore(w, front));
      RouteIsChain(w, front);
    }
  }

  // ----- Entries -----

  /** The entry reports a chain truthfully: its end, score, length and raw evidence. */
  ghost predicate Truthful(w: Walk, e: Entry) {
    && Chain(w, e.via)
    && e.id == End(e.via)
    && e.score == ChainScore(w, e.via)
    && e.hopDepth == |e.via|
    && e.provenanceWeight == RawEvidence(e.via)
    && e.threadID == e.via[|e.via| - 1].fromThread
    && e.crossThread == (e.threadID != w.thread)
  }

  /** The entry's chain extends the chain of an earlier selected entry by one edge. */
  ghost predicate Rooted(selected: seq<Entry>, e: Entry) {
    |e.via| == 1 || (|e.via| > 1 && exists p :: p in selected && p.via == e.via[..|e.via| - 1])
  }

  /** Entries waiting in the queue: truthful, or an edge that loops back to the prompt. */
  ghost predicate Waiting(w: Walk, selected: seq<Entry>, e: Entry) {
    e.id == w.prompt || (Truthful(w, e) && Rooted(selected, e))
  }

  ghost predicate Kept(w: Walk, s: Entry) {
    Truthful(w, s) && s.score >= w.lossRatio
  }

  ghost predicate AllKept(w: Walk, selected: seq<Entry>) {
    forall s {:trigger Kept(w, s)} :: s in selected ==> Kept(w, s)
  }

  ghost predicate Picked(selected: seq<Entry>, id: string) {
    exists s :: s in selected && s.id == id
  }

  ghost predicate Tree(selected: seq<Entry>) {
    forall i :: 0 <= i < |selected| ==> Rooted(selected[..i], selected[i])
  }

  ghost predicate DistinctIds(selected: seq<Entry>) {
    forall i, j :: 0 <= i < j < |selected| ==> selected[i].id != selected[j].id
  }

  ghost predicate NonIncreasing(selected: seq<Entry>) {
    forall i, j :: 0 <= i < j < |selected| ==> selected[i].score >= selected[j].score
  }

  ghost predicate Queued(queue: seq<Entry>, id: string, score: real) {
    exists q :: q in queue && q.id == id && q.score >= score
  }

  method PopMax(queue: seq<Entry>) returns (top: Entry, rest: seq<Entry>)
    requires queue != []
    ensures top in queue
    ensures forall q :: q in queue ==> q.score <= top.score
    ensures forall q :: q in queue ==> q == top || q in rest
    ensures forall q :: q in rest ==> q in queue
    ensures |rest| == |queue| - 1
  {
    var at := 0;
    for i := 1 to |queue|
      invariant 0 <= at < i
      invariant forall j :: 0 <= j < i ==> queue[j].score <= queue[at].score
    {
      if queue[i].score > queue[at].score { at := i; }
    }
    top, rest := queue[at], queue[..at] + queue[at + 1..];
  }

  // ----- What every traversal does, whatever the scores -----

  /** `e` offers its message at `score`, straight to the prompt or through a selected entry. */
  ghost predicate Offers(w: Walk, selected: seq<Entry>, e: Edge, score: real) {
    || (AcceptedSeed(w, e) && score == SeedScore(e))
    || (AcceptedStep(w, e) && exists s {:trigger s in selected} ::
          s in selected && e.to == s.id && score == Decay(RelationalScore(w, e), s.score))
  }

  /** The `i`-th pick scores at least what any offer so far gives a message not yet picked. */
  ghost predicate Greedy(w: Walk, selected: seq<Entry>, i: nat)
    requires i < |selected|
  {
    forall e, score {:trigger Offers(w, selected[..i], e, score)} ::
      Offers(w, selected[..i], e, score) && e.from != w.prompt && !Picked(selected[..i], e.from) ==>
              score <= selected[i].score
  }

  ghost predicate AllGreedy(w: Walk, selected: seq<Entry>) {
    forall i {:trigger Greedy(w, selected, i)} :: 0 <= i < |selected| ==> Greedy(w, selected, i)
  }

  ghost predicate Apart(w: Walk, selected: seq<Entry>, below: map<string, real>) {
    && w.prompt !in below
    && (forall s :: s in selected ==> s.id !in below && s.id != w.prompt)
  }

  /** `id` was given up at the best score any edge offers it, below the stance. */
  ghost predicate GivenUp(w: Walk, selected: seq<Entry>, id: string, best: real) {
    && best < w.lossRatio
    && (exists e: Edge :: e.from == id && Offers(w, selected, e, best))
    && (forall e, score {:trigger Offers(w, selected, e, score)} :: Offers(w, selected, e, score) && e.from == id ==>
        score <= best)
  }

  ghost predicate AllGivenUp(w: Walk, selected: seq<Entry>, below: map<string, real>) {
    forall id {:trigger GivenUp(w, selected, id, below[id])} :: id in below ==> GivenUp(w, selected, id, below[id])
  }

  /** The picks are forced: truthful, above the stance, each extending the prompt or an earlier pick
      and the best on offer when it was made. */
  ghost predicate Picks(w: Walk, selected: seq<Entry>) {
    AllKept(w, selected) && Tree(selected) && DistinctIds(selected) && AllGreedy(w, selected)
  }

  /** Every message on offer in the end is the prompt, picked, or given up. */
  ghost predicate Exhausted(w: Walk, selected: seq<Entry>, below: map<string, real>) {
    forall e, score {:trigger Offers(w, selected, e, score)} :: Offers(w, selected, e, score) ==>
      e.from == w.prompt || Picked(selected, e.from) || e.from in below
  }

  ghost predicate Forced(w: Walk, selected: seq<Entry>, below: map<string, real>) {
    && Picks(w, selected) && Apart(w, selected, below)
    && AllGivenUp(w, selected, below) && Exhausted(w, selected, below)
  }

  /** A waiting entry's last edge offers it. */
  lemma EntryIsOffered(w: Walk, selected: seq<Entry>, q: Entry)
    requires AllKept(w, selected) && Truthful(w, q) && Rooted(selected, q)
    ensures Offers(w, selected, q.via[|q.via| - 1], q.score) && q.via[|q.via| - 1].from == q.id
  {
    if |q.via| > 1 {
      var p :| p in selected && p.via == q.via[..|q.via| - 1];
      assert Kept(w, p);
    }
  }

  // ----- The loop -----

  ghost predicate QueueTruthful(w: Walk, selected: seq<Entry>, queue: seq<Entry>) {
    forall q {:trigger Waiting(w, selected, q)} :: q in queue ==> Waiting(w, selected, q)
  }

  /** Every offer of an unvisited message is waiting. */
  ghost predicate Covered(w: Walk, selected: seq<Entry>, visited: set<string>, queue: seq<Entry>) {
    forall e, score {:trigger Offers(w, selected, e, score)} :: Offers(w, selected, e, score) && e.from !in visited ==>
      Queued(queue, e.from, score)
  }

  ghost predicate Accounted(w: Walk, selected: seq<Entry>, below: map<string, real>, visited: set<string>) {
    Apart(w, selected, below) && forall id :: id in visited <==> id == w.prompt || id in below || Picked(selected, id)
  }

  /** Once a message was given up nothing waiting clears the stance. */
  ghost predicate Fading(w: Walk, below: map<string, real>, queue: seq<Entry>) {
    below != map[] ==> forall q :: q in queue ==> q.score < w.lossRatio
  }

  ghost predicate Running(w: Walk, selected: seq<Entry>, below: map<string, real>, visited: set<string>,
                          queue: seq<Entry>) {
    && Picks(w, selected) && AllGivenUp(w, selected, below) && Accounted(w, selected, below, visited)
    && Covered(w, selected, visited, queue) && QueueTruthful(w, selected, queue) && Fading(w, below, queue)
  }

  /** What popping tells: `top` is a greatest entry of the queue, and `rest` is the others. */
  ghost predicate Popped(queue: seq<Entry>, top: Entry, rest: seq<Entry>) {
    && top in queue
    && (forall q :: q in queue ==> q.score <= top.score)
    && (forall q :: q in queue ==> q == top || q in rest)
    && (forall q :: q in rest ==> q in queue)
  }

  lemma PopKeepsCover(w: Walk, selected: seq<Entry>, visited: set<string>, queue: seq<Entry>,
                      top: Entry, rest: seq<Entry>, visited': set<string>)
    requires Covered(w, selected, visited, queue) && Popped(queue, top, rest)
    requires visited <= visited' && top.id in visited'
    ensures Covered(w, selected, visited', rest)
  {
    forall id, score | Queued(queue, id, score) && id !in visited' ensures Queued(rest, id, score) {
      var q :| q in queue && q.id == id && q.score >= score;
      assert q in rest;
    }
  }

  /** No offer of an unvisited message exceeds the popped maximum. */
  lemma TopIsBest(w: Walk, selected: seq<Entry>, visited: set<string>, queue: seq<Entry>, top: Entry, rest: seq<Entry>,
                  e: Edge, score: real)
    requires Covered(w, selected, visited, queue) && Popped(queue, top, rest)
    requires Offers(w, selected, e, score) && e.from !in visited
    ensures score <= top.score
  {
    assert Queued(queue, e.from, score);
  }

  lemma GiveUp(w: Walk, selected: seq<Entry>, below: map<string, real>, visited: set<string>,
               queue: seq<Entry>, top: Entry, rest: seq<Entry>)
    requires Running(w, selected, below, visited, queue) && Popped(queue, top, rest)
    requires top.id !in visited && top.score < w.lossRatio
    ensures Running(w, selected, below[top.id := top.score], visited + {top.id}, rest)
  {
    var below' := below[top.id := top.score];
    PopKeepsCover(w, selected, visited, queue, top, rest, visited + {top.id});
    assert Waiting(w, selected, top);
    EntryIsOffered(w, selected, top);
    assert GivenUp(w, selected, top.id, top.score) by {
      forall e, score | Offers(w, selected, e, score) && e.from == top.id ensures score <= top.score {
        TopIsBest(w, selected, visited, queue, top, rest, e, score);
      }
    }
    forall id | id in below' ensures GivenUp(w, selected, id, below'[id]) {
      assert id != top.id ==> GivenUp(w, selected, id, below[id]);
    }
    GiveUpAccounts(w, selected, below, visited, top);
  }

  lemma GiveUpAccounts(w: Walk, selected: seq<Entry>, below: map<string, real>, visited: set<string>, top: Entry)
    requires Accounted(w, selected, below, visited) && top.id !in visited
    ensures Accounted(w, selected, below[top.id := top.score], visited + {top.id})
  {
  }

  lemma PickAccounts(w: Walk, selected: seq<Entry>, visited: set<string>, top: Entry)
    requires Accounted(w, selected, map[], visited) && top.id !in visited
    ensures Accounted(w, selected + [top], map[], visited + {top.id})
  {
    forall id ensures Picked(selected + [top], id) <==> Picked(selected, id) || id == top.id {
      assert top in selected + [top];
      if Picked(selected, id) {
        var s :| s in selected && s.id == id;
        assert s in selected + [top];
      }
    }
  }

  /** The popped maximum is a forced pick. */
  lemma PickIsForced(w: Walk, selected: seq<Entry>, visited: set<string>, queue: seq<Entry>, top: Entry,
                     rest: seq<Entry>)
    requires Running(w, selected, map[], visited, queue) && Popped(queue, top, rest)
    requires top.id !in visited && top.score >= w.lossRatio
    ensures Picks(w, selected + [top])
  {
    var picks, n := selected + [top], |selected|;
    assert Waiting(w, selected, top);
    assert AllKept(w, picks);
    forall i | 0 <= i < |picks| ensures Rooted(picks[..i], picks[i]) && Greedy(w, picks, i) {
      assert picks[..i] == selected[..i];
      if i < n {
        assert Greedy(w, selected, i);
      } else {
        assert selected[..i] == selected;
        forall e, score | Offers(w, selected, e, score) && e.from != w.prompt && !Picked(selected, e.from)
          ensures score <= top.score
        {
          TopIsBest(w, selected, visited, queue, top, rest, e, score);
        }
      }
    }
    forall i | 0 <= i < n ensures picks[i].id != top.id { assert picks[i] in selected; }
  }

  lemma WaitingGrows(w: Walk, selected: seq<Entry>, top: Entry, queue: seq<Entry>)
    requires QueueTruthful(w, selected, queue)
    ensures QueueTruthful(w, selected + [top], queue)
  {
    forall q | q in queue ensures Waiting(w, selected + [top], q) {
      assert Waiting(w, selected, q);
      if Rooted(selected, q) && |q.via| > 1 {
        var p :| p in selected && p.via == q.via[..|q.via| - 1];
        assert p in selected + [top];
      }
    }
  }

  // ----- Pushing -----

  /** The entry that enters along `e`. */
  function Enter(w: Walk, e: Edge): Entry {
    Entry(e.from, SeedScore(e), 1, [e], e.fromThread, e.fromThread != w.thread, e.crossEncoderScore)
  }

  /** The entry one hop beyond `s` along `e`. */
  function Extend(w: Walk, s: Entry, e: Edge): Entry {
    Entry(e.from, Decay(RelationalScore(w, e), s.score), s.hopDepth + 1, s.via + [e],
          e.fromThread, e.fromThread != w.thread, Decay(e.crossEncoderScore, s.provenanceWeight))
  }

  lemma EnterIsWaiting(w: Walk, e: Edge)
    requires AcceptedSeed(w, e)
    ensures Waiting(w, [], Enter(w, e))
  {
    if e.from != w.prompt {
      assert [e][..0] == [] && RawEvidence([]) == 1.0;
      assert RawEvidence([e]) == Decay(e.crossEncoderScore, RawEvidence([e][..0]));
      assert Chain(w, [e]);
    }
  }

  lemma ExtendIsTruthful(w: Walk, s: Entry, e: Edge)
    requires Truthful(w, s) && AcceptedStep(w, e) && e.to == s.id && e.from != w.prompt
    ensures Truthful(w, Extend(w, s, e))
  {
    var x, via := Extend(w, s, e), s.via + [e];
    ChainExtends(w, s.via, e);
    assert x.via == via && |via| == s.hopDepth + 1 && via[|via| - 1] == e;
    assert x.score == ChainScore(w, via) && x.provenanceWeight == RawEvidence(via);
  }

  lemma ChainExtends(w: Walk, front: seq<Edge>, e: Edge)
    requires Chain(w, front) && AcceptedStep(w, e) && e.to == End(front) && e.from != w.prompt
    ensures Chain(w, front + [e]) && End(front + [e]) == e.from
    ensures ChainScore(w, front + [e]) == Decay(RelationalScore(w, e), ChainScore(w, front))
    ensures RawEvidence(front + [e]) == Decay(e.crossEncoderScore, RawEvidence(front))
  {
    FrontAndLast(front, e);
    RawExtends(front, e);
  }

  lemma FrontAndLast(front: seq<Edge>, e: Edge)
    requires front != []
    ensures var via := front + [e];
            via[..|via| - 1] == front && via[|via| - 2] == front[|front| - 1] && via[|via| - 1] == e && |via| > 1
  {
  }

  lemma RawExtends(front: seq<Edge>, e: Edge)
    ensures RawEvidence(front + [e]) == Decay(e.crossEncoderScore, RawEvidence(front))
  {
    assert (front + [e])[..|front|] == front;
  }

  lemma ExtendIsWaiting(w: Walk, selected: seq<Entry>, s: Entry, e: Edge)
    requires Truthful(w, s) && s in selected && AcceptedStep(w, e) && e.to == s.id
    ensures Waiting(w, selected, Extend(w, s, e))
  {
    var x := Extend(w, s, e);
    if e.from != w.prompt {
      ExtendIsTruthful(w, s, e);
      assert x.via[..|x.via| - 1] == s.via;
    }
  }

  /** The accepted seeds among `es[..n]` are waiting. */
  ghost predicate SeedsPushed(w: Walk, es: seq<Edge>, n: nat, queue: seq<Entry>)
    requires n <= |es|
  {
    forall i :: 0 <= i < n && Followable(w, es[i]) && SeedScore(es[i]) >= w.lossRatio ==>
                  Queued(queue, es[i].from, SeedScore(es[i]))
  }

  method PushSeeds(w: Walk) returns (queue: seq<Entry>)
    requires Indexed(w)
    ensures QueueTruthful(w, [], queue)
    ensures Covered(w, [], {w.prompt}, queue)
  {
    queue := [];
    var es := Lookup(w.backward, w.prompt);
    for i := 0 to |es|
      invariant QueueTruthful(w, [], queue)
      invariant SeedsPushed(w, es, i, queue)
    {
      var e := es[i];
      if Followable(w, e) {
        if Accept(SeedScore(e), w.lossRatio, 0.0, 0) {
          EnterIsWaiting(w, e);
          queue := queue + [Enter(w, e)];
        }
      }
    }
  }

  ghost predicate StepsPushed(w: Walk, s: Entry, es: seq<Edge>, n: nat, visited: set<string>, queue: seq<Entry>)
    requires n <= |es|
  {
    forall i :: 0 <= i < n && Followable(w, es[i]) && RelationalScore(w, es[i]) >= w.lossRatio &&
                es[i].from !in visited ==>
                  Queued(queue, es[i].from, Decay(RelationalScore(w, es[i]), s.score))
  }

  /** Queues the prerequisites of the freshly selected `s` at their decayed scores. */
  method PushSteps(w: Walk, ghost selected: seq<Entry>, s: Entry, visited: set<string>, queue0: seq<Entry>)
    returns (queue: seq<Entry>)
    requires Indexed(w) && Truthful(w, s) && s in selected && QueueTruthful(w, selected, queue0)
    ensures QueueTruthful(w, selected, queue)
    ensures forall q :: q in queue0 ==> q in queue
    ensures StepsPushed(w, s, Lookup(w.backward, s.id), |Lookup(w.backward, s.id)|, visited, queue)
  {
    queue := queue0;
    var es := Lookup(w.backward, s.id);
    for i := 0 to |es|
      invariant QueueTruthful(w, selected, queue)
      invariant forall q :: q in queue0 ==> q in queue
      invariant StepsPushed(w, s, es, i, visited, queue)
    {
      var e := es[i];
      if e.source != EdgeSource.Provenance && e.from !in visited && ScopeAllows(e, w.thread, w.scope) {
        if Accept(RelationalScore(w, e), w.lossRatio, 0.0, 0) {
          ExtendIsWaiting(w, selected, s, e);
          StepsPushedMore(w, s, es, i, visited, queue, Extend(w, s, e));
          queue := queue + [Extend(w, s, e)];
        }
      }
    }
  }

  lemma StepsPushedMore(w: Walk, s: Entry, es: seq<Edge>, n: nat, visited: set<string>, queue: seq<Entry>, x: Entry)
    requires n < |es| && StepsPushed(w, s, es, n, visited, queue)
    requires x.id == es[n].from && x.score == Decay(RelationalScore(w, es[n]), s.score)
    ensures StepsPushed(w, s, es, n + 1, visited, queue + [x])
  {
    forall i | 0 <= i < n + 1 && Followable(w, es[i]) && RelationalScore(w, es[i]) >= w.lossRatio &&
        es[i].from !in visited
      ensures Queued(queue + [x], es[i].from, Decay(RelationalScore(w, es[i]), s.score))
    {
      if i < n {
        QueuedGrows(queue, queue + [x], es[i].from, Decay(RelationalScore(w, es[i]), s.score));
      } else {
        assert x in queue + [x];
      }
    }
  }

  lemma QueuedGrows(queue: seq<Entry>, more: seq<Entry>, id: string, score: real)
    requires Queued(queue, id, score) && forall q :: q in queue ==> q in more
    ensures Queued(more, id, score)
  {
    var q :| q in queue && q.id == id && q.score >= score;
    assert q in more;
  }

  /** Pushing the steps of a pick covers its offers too. */
  lemma PickKeepsCover(w: Walk, selected: seq<Entry>, visited: set<string>, rest: seq<Entry>, top: Entry,
                       queue: seq<Entry>)
    requires Covered(w, selected, visited, rest)
    requires forall q :: q in rest ==> q in queue
    requires StepsPushed(w, top, Lookup(w.backward, top.id), |Lookup(w.backward, top.id)|, visited, queue)
    ensures Covered(w, selected + [top], visited, queue)
  {
    forall e, score | Offers(w, selected + [top], e, score) && e.from !in visited ensures Queued(queue, e.from, score) {
      if Offers(w, selected, e, score) {
        QueuedGrows(rest, queue, e.from, score);
      } else {
        var es := Lookup(w.backward, top.id);
        assert e.to == top.id && score == Decay(RelationalScore(w, e), top.score) && e in es;
        var i :| 0 <= i < |es| && es[i] == e;
      }
    }
  }

  // ----- What a selection is made of, in the fields of the edges -----

  /** Every edge on a selected chain is recorded, scored and inside the scope; under any scope but all
      threads nothing selected crosses threads. */
  ghost predicate InScope(w: Walk, selected: seq<Entry>) {
    && (forall s, e :: s in selected && e in s.via ==>
          e in Lookup(w.backward, e.to) && e.source != EdgeSource.Provenance &&
          (w.scope == AllThreads || (e.fromThread == w.thread && e.toThread == w.thread)))
    && (forall s :: s in selected && w.scope != AllThreads ==> s.threadID == w.thread && !s.crossThread)
  }

  /** `e` is a recorded scored edge in scope, into the prompt or a selected message, that clears the
      stance there. */
  ghost predicate Opens(w: Walk, selected: seq<Entry>, e: Edge) {
    && e in Lookup(w.backward, e.to) && e.source != EdgeSource.Provenance
    && (w.scope == AllThreads || (e.fromThread == w.thread && e.toThread == w.thread))
    && ((e.to == w.prompt && e.score >= w.lossRatio) ||
        (Picked(selected, e.to) && RelationalScore(w, e) >= w.lossRatio))
  }

  /** Nothing in scope is overlooked: what such an edge opens is the prompt, selected or given up. */
  ghost predicate TakesAll(w: Walk, selected: seq<Entry>, below: map<string, real>) {
    forall e {:trigger Opens(w, selected, e)} :: Opens(w, selected, e) ==>
      e.from == w.prompt || Picked(selected, e.from) || e.from in below
  }

  lemma {:induction false} ChainIsInScope(w: Walk, via: seq<Edge>, e: Edge)
    requires Chain(w, via) && e in via
    ensures e in Lookup(w.backward, e.to) && e.source != EdgeSource.Provenance
    ensures w.scope == AllThreads || (e.fromThread == w.thread && e.toThread == w.thread)
  {
    var front, last := via[..|via| - 1], via[|via| - 1];
    assert via == front + [last];
    if e != last { ChainIsInScope(w, front, e); }
  }

  lemma ForcedIsInScope(w: Walk, selected: seq<Entry>, below: map<string, real>)
    requires Forced(w, selected, below)
    ensures InScope(w, selected) && TakesAll(w, selected, below)
  {
    forall s, e | s in selected && e in s.via
      ensures e in Lookup(w.backward, e.to) && e.source != EdgeSource.Provenance &&
              (w.scope == AllThreads || (e.fromThread == w.thread && e.toThread == w.thread))
    {
      assert Kept(w, s);
      ChainIsInScope(w, s.via, e);
    }
    forall s | s in selected && w.scope != AllThreads ensures s.threadID == w.thread && !s.crossThread {
      assert Kept(w, s);
      ChainIsInScope(w, s.via, s.via[|s.via| - 1]);
    }
    forall e | Opens(w, selected, e) ensures e.from == w.prompt || Picked(selected, e.from) || e.from in below {
      OpenedIsTaken(w, selected, below, e);
    }
  }

  lemma OpenedIsTaken(w: Walk, selected: seq<Entry>, below: map<string, real>, e: Edge)
    requires Forced(w, selected, below) && Opens(w, selected, e)
    ensures e.from == w.prompt || Picked(selected, e.from) || e.from in below
  {
    assert Eligible(w, e);
    if e.to == w.prompt && e.score >= w.lossRatio {
      assert Offers(w, selected, e, e.score);
    } else {
      var s :| s in selected && s.id == e.to;
      assert Offers(w, selected, e, Decay(RelationalScore(w, e), s.score));
    }
  }

  lemma DecayIsProduct(a: real, s: real)
    ensures Decay(a, s) == a * s
  {
  }

  /** A chain is worth its first edge's verdict times the readings of the edges beyond. */
  lemma ChainIsProduct(w: Walk, front: seq<Edge>, e: Edge)
    ensures ChainScore(w, [e]) == e.score
    ensures front != [] ==> ChainScore(w, front + [e]) == RelationalScore(w, e) * ChainScore(w, front)
  {
    if front != [] {
      FrontAndLast(front, e);
      DecayIsProduct(RelationalScore(w, e), ChainScore(w, front));
    }
  }

  /** Raw evidence is the product of the observations; without a measured floor an observation is
      read as it is. */
  lemma EvidenceIsProduct(w: Walk, front: seq<Edge>, e: Edge)
    ensures RawEvidence([]) == 1.0 && RawEvidence(front + [e]) == e.crossEncoderScore * RawEvidence(front)
    ensures |w.floor| < 4 ==> RelationalScore(w, e) == e.crossEncoderScore
  {
    RawExtends(front, e);
    DecayIsProduct(e.crossEncoderScore, RawEvidence(front));
  }

  // ----- The traversal -----

  ghost function Senders(w: Walk): set<string> {
    set id, e | id in w.backward && e in w.backward[id] :: e.from
  }

  lemma TopIsSender(w: Walk, top: Entry)
    requires Truthful(w, top)
    ensures top.id in Senders(w)
  {
    var e := top.via[|top.via| - 1];
    assert Eligible(w, e) && e.to in w.backward && e in w.backward[e.to];
  }

  /** Pops the best waiting entry and decides its message. */
  method Visit(w: Walk, selected0: seq<Entry>, below0: map<string, real>, visited0: set<string>, queue0: seq<Entry>)
    returns (selected: seq<Entry>, below: map<string, real>, visited: set<string>, queue: seq<Entry>)
    requires Indexed(w) && queue0 != [] && Running(w, selected0, below0, visited0, queue0)
    ensures Running(w, selected, below, visited, queue)
    ensures if visited == visited0 then |queue| < |queue0| else
            exists id :: id in Senders(w) - visited0 && visited == visited0 + {id}
  {
    selected, below, visited := selected0, below0, visited0;
    var top, rest := PopMax(queue0);
    queue := rest;
    if top.id in visited {
      PopKeepsCover(w, selected, visited, queue0, top, rest, visited);
      return;
    }
    assert Waiting(w, selected, top);
    TopIsSender(w, top);
    visited := visited + {top.id};
    if top.score < w.lossRatio {
      GiveUp(w, selected, below, visited0, queue0, top, rest);
      below := below[top.id := top.score];
    } else {
      selected, queue := Pick(w, selected, below, visited0, queue0, top, rest);
    }
  }

  method Pick(w: Walk, selected0: seq<Entry>, ghost below: map<string, real>, visited: set<string>,
              ghost queue0: seq<Entry>, top: Entry, rest: seq<Entry>)
    returns (selected: seq<Entry>, queue: seq<Entry>)
    requires Indexed(w) && Running(w, selected0, below, visited, queue0) && Popped(queue0, top, rest)
    requires top.id !in visited && top.score >= w.lossRatio
    ensures selected == selected0 + [top] && Running(w, selected, below, visited + {top.id}, queue)
  {
    assert below == map[];
    PickIsForced(w, selected0, visited, queue0, top, rest);
    PickAccounts(w, selected0, visited, top);
    PopKeepsCover(w, selected0, visited, queue0, top, rest, visited + {top.id});
    WaitingGrows(w, selected0, top, rest);
    selected := selected0 + [top];
    assert Kept(w, selected[|selected0|]);
    queue := PushSteps(w, selected, top, visited + {top.id}, rest);
    PickKeepsCover(w, selected0, visited + {top.id}, rest, top, queue);
  }

  lemma StartIsRunning(w: Walk, queue: seq<Entry>)
    requires QueueTruthful(w, [], queue) && Covered(w, [], {w.prompt}, queue)
    ensures Running(w, [], map[], {w.prompt}, queue)
  {
  }

  lemma DrainedIsForced(w: Walk, selected: seq<Entry>, below: map<string, real>, visited: set<string>)
    requires Running(w, selected, below, visited, [])
    ensures Forced(w, selected, below)
  {
    assert forall id, score {:trigger Queued([], id, score)} :: !Queued([], id, score);
  }

  /** The traversal makes forced picks whatever the scores; damped ones make it optimal. */
  method ExtractSubgraph(w: Walk) returns (selected: seq<Entry>, below: map<string, real>)
    requires Indexed(w)
    ensures Forced(w, selected, below)
    ensures Damped(w) ==> SelectionPromise(w, selected, below)
    ensures InScope(w, selected) && TakesAll(w, selected, below)
  {
    var visited := {w.prompt};
    selected, below := [], map[];
    var queue := PushSeeds(w);
    StartIsRunning(w, queue);
    while queue != []
      invariant Running(w, selected, below, visited, queue)
      decreases |Senders(w) - visited|, |queue|
    {
      ghost var before := visited;
      selected, below, visited, queue := Visit(w, selected, below, visited, queue);
      if visited != before {
        ghost var id :| id in Senders(w) - before && visited == before + {id};
        assert Senders(w) - visited == (Senders(w) - before) - {id};
      }
    }
    DrainedIsForced(w, selected, below, visited);
    ForcedIsInScope(w, selected, below);
    if Damped(w) { ForcedIsBest(w, selected, below); }
  }

  // ----- Forced picks are optimal -----

  /** No chain to `id` beats `score`. */
  ghost predicate Best(w: Walk, id: string, score: real) {
    forall via {:trigger ChainScore(w, via)} :: Chain(w, via) && End(via) == id ==> ChainScore(w, via) <= score
  }

  /** Every chain to `id` falls below the stance. */
  ghost predicate Hopeless(w: Walk, id: string) {
    forall via {:trigger ChainScore(w, via)} :: Chain(w, via) && End(via) == id ==> ChainScore(w, via) < w.lossRatio
  }

  /** A selected entry: truthful, above the stance and unbeaten. */
  ghost predicate Chosen(w: Walk, s: Entry) {
    Kept(w, s) && Best(w, s.id, s.score)
  }

  ghost predicate AllChosen(w: Walk, selected: seq<Entry>) {
    forall s {:trigger Chosen(w, s)} :: s in selected ==> Chosen(w, s)
  }

  ghost predicate AllHopeless(w: Walk, below: map<string, real>) {
    forall id {:trigger Hopeless(w, id)} :: id in below ==> below[id] < w.lossRatio && Hopeless(w, id)
  }

  /** Each below-floor score is the score of an actual chain. */
  ghost predicate BelowWitnessed(w: Walk, below: map<string, real>) {
    forall id {:trigger below[id]} :: id in below ==>
      exists via :: Chain(w, via) && End(via) == id && ChainScore(w, via) == below[id]
  }

  /** What a traversal promises. The selected messages are exactly those some chain of accepted
      edges connects to the prompt at or above the stance; each carries its best chain. */
  ghost predicate SelectionPromise(w: Walk, selected: seq<Entry>, below: map<string, real>) {
    && AllChosen(w, selected)
    && DistinctIds(selected) && NonIncreasing(selected) && Tree(selected)
    && (forall via {:trigger ChainScore(w, via)} :: Chain(w, via) && ChainScore(w, via) >= w.lossRatio ==>
          exists s :: s in selected && s.id == End(via) && ChainScore(w, via) <= s.score)
    && AllHopeless(w, below) && BelowWitnessed(w, below)
    && (forall s :: s in selected ==> s.id !in below && s.id != w.prompt)
  }

  lemma OfferedEarlier(w: Walk, selected: seq<Entry>, i: nat, e: Edge, score: real)
    requires Picks(w, selected) && i < |selected| && Offers(w, selected[..i], e, score)
    requires e.from == selected[i].id && e.from != w.prompt
    ensures score <= selected[i].score
  {
    assert Greedy(w, selected, i);
    forall s | s in selected[..i] ensures s.id != e.from {
      var k :| 0 <= k < i && selected[..i][k] == s;
    }
  }

  /** Damped picks come in non-increasing order. */
  lemma {:induction false} PicksFall(w: Walk, selected: seq<Entry>, i: nat, j: nat)
    requires Damped(w) && Picks(w, selected) && i < j < |selected|
    ensures selected[j].score <= selected[i].score
    decreases j
  {
    var q := selected[j];
    assert Kept(w, q) && Rooted(selected[..j], q) && Greedy(w, selected, i);
    var e := q.via[|q.via| - 1];
    assert !Picked(selected[..i], q.id);
    if |q.via| == 1 {
      assert Offers(w, selected[..i], e, q.score);
    } else {
      var p :| 0 <= p < j && selected[..j][p].via == q.via[..|q.via| - 1];
      assert Kept(w, selected[p]);
      if p < i {
        assert selected[..i][p] in selected[..i];
        assert Offers(w, selected[..i], e, q.score);
      } else {
        DampedStep(w, e, selected[p].score);
        if p > i { PicksFall(w, selected, i, p); }
      }
    }
  }

  /** An offer that clears the stance has been taken up. */
  lemma OfferIsPicked(w: Walk, selected: seq<Entry>, below: map<string, real>, e: Edge, score: real) returns (i: nat)
    requires Forced(w, selected, below) && Offers(w, selected, e, score) && score >= w.lossRatio && e.from != w.prompt
    ensures i < |selected| && selected[i].id == e.from
  {
    assert e.from in below ==> GivenUp(w, selected, e.from, below[e.from]);
    var s :| s in selected && s.id == e.from;
    i :| 0 <= i < |selected| && selected[i] == s;
  }

  /** Every chain that clears the stance ends at a pick worth at least as much. */
  lemma {:induction false} ChainIsPicked(w: Walk, selected: seq<Entry>, below: map<string, real>, via: seq<Edge>)
    returns (i: nat)
    requires Damped(w) && Forced(w, selected, below) && Chain(w, via) && ChainScore(w, via) >= w.lossRatio
    ensures i < |selected| && selected[i].id == End(via) && ChainScore(w, via) <= selected[i].score
    decreases |via|
  {
    var e := via[|via| - 1];
    if |via| == 1 {
      i := OfferIsPicked(w, selected, below, e, SeedScore(e));
      OfferedEarlier(w, selected, i, e, SeedScore(e));
    } else {
      var front := via[..|via| - 1];
      ChainScoreFalls(w, via);
      var j := ChainIsPicked(w, selected, below, front);
      var s := selected[j];
      var offer := Decay(RelationalScore(w, e), s.score);
      DecayMonotone(RelationalScore(w, e), ChainScore(w, front), s.score);
      assert s in selected && Offers(w, selected, e, offer);
      i := OfferIsPicked(w, selected, below, e, offer);
      OfferIsNoBetter(w, selected, j, i, e);
    }
  }

  /** Picked before or after the pick that offers it, a message carries at least that offer. */
  lemma OfferIsNoBetter(w: Walk, selected: seq<Entry>, j: nat, i: nat, e: Edge)
    requires Damped(w) && Picks(w, selected) && i < |selected| && j < |selected|
    requires AcceptedStep(w, e) && e.to == selected[j].id && e.from == selected[i].id && e.from != w.prompt
    ensures Decay(RelationalScore(w, e), selected[j].score) <= selected[i].score
  {
    assert Kept(w, selected[j]);
    if j < i {
      assert selected[..i][j] in selected[..i];
      OfferedEarlier(w, selected, i, e, Decay(RelationalScore(w, e), selected[j].score));
    } else {
      DampedStep(w, e, selected[j].score);
      if i < j { PicksFall(w, selected, i, j); }
    }
  }

  lemma OfferIsChain(w: Walk, selected: seq<Entry>, e: Edge, score: real) returns (via: seq<Edge>)
    requires AllKept(w, selected) && Offers(w, selected, e, score) && e.from != w.prompt
    ensures Chain(w, via) && End(via) == e.from && ChainScore(w, via) == score
  {
    if AcceptedSeed(w, e) && score == SeedScore(e) {
      via := [e];
    } else {
      var s :| s in selected && e.to == s.id && score == Decay(RelationalScore(w, e), s.score);
      assert Kept(w, s);
      ExtendIsTruthful(w, s, e);
      via := Extend(w, s, e).via;
    }
  }

  /** Forced picks over a damped walk are the selection promised. */
  lemma ForcedIsBest(w: Walk, selected: seq<Entry>, below: map<string, real>)
    requires Damped(w) && Forced(w, selected, below)
    ensures SelectionPromise(w, selected, below)
  {
    forall via | Chain(w, via) && ChainScore(w, via) >= w.lossRatio
      ensures exists s :: s in selected && s.id == End(via) && ChainScore(w, via) <= s.score
    {
      var i := ChainIsPicked(w, selected, below, via);
      assert selected[i] in selected;
    }
    forall s | s in selected ensures Chosen(w, s) { PickIsBest(w, selected, below, s); }
    forall id | id in below
      ensures Hopeless(w, id) && exists via :: Chain(w, via) && End(via) == id && ChainScore(w, via) == below[id]
    {
      GivenUpIsHopeless(w, selected, below, id);
    }
    forall i, j | 0 <= i < j < |selected|
      ensures selected[i].score >= selected[j].score
    {
      PicksFall(w, selected, i, j);
    }
  }

  lemma PickIsBest(w: Walk, selected: seq<Entry>, below: map<string, real>, s: Entry)
    requires Damped(w) && Forced(w, selected, below) && s in selected
    ensures Chosen(w, s)
  {
    assert Kept(w, s);
    var k :| 0 <= k < |selected| && selected[k] == s;
    forall via | Chain(w, via) && End(via) == s.id && ChainScore(w, via) >= w.lossRatio
      ensures ChainScore(w, via) <= s.score
    {
      var i := ChainIsPicked(w, selected, below, via);
      assert i == k;
    }
  }

  lemma GivenUpIsHopeless(w: Walk, selected: seq<Entry>, below: map<string, real>, id: string)
    requires Damped(w) && Forced(w, selected, below) && id in below
    ensures below[id] < w.lossRatio && Hopeless(w, id)
    ensures exists via :: Chain(w, via) && End(via) == id && ChainScore(w, via) == below[id]
  {
    assert GivenUp(w, selected, id, below[id]);
    forall via {:trigger ChainScore(w, via)} | Chain(w, via) && ChainScore(w, via) >= w.lossRatio
      ensures Picked(selected, End(via))
    {
      var i := ChainIsPicked(w, selected, below, via);
      assert selected[i] in selected;
    }
    assert !Picked(selected, id);
    var e: Edge :| e.from == id && Offers(w, selected, e, below[id]);
    var via := OfferIsChain(w, selected, e, below[id]);
  }

  // ----- A reading above one breaks the promise -----

  /** Two prerequisites of the prompt, one of them accepted at `s`, and between them an observation of
      `r` read without a floor. */
  ghost function OverOne(lossRatio: real, s: real, r: real): Walk {
    Walk(map["p" := [Edge("a", "p", s, 1.0, EdgeSource.CrossEncoder, "t", "t"),
                     Edge("b", "p", Decay((1.0 + r) / 2.0, s), 1.0, EdgeSource.CrossEncoder, "t", "t")],
             "a" := [Edge("b", "a", 1.0, r, EdgeSource.CrossEncoder, "t", "t")]],
         "p", "t", AllThreads, lossRatio, [])
  }

  /** Whatever the stance, and whatever reading above one it accepts, forced picks can miss the best
      chain. */
  lemma AboveOneFails(lossRatio: real, s: real, r: real, selected: seq<Entry>, below: map<string, real>)
    requires lossRatio <= s && 0.0 < s && lossRatio <= r && 1.0 < r && Forced(OverOne(lossRatio, s, r), selected, below)
    ensures !SelectionPromise(OverOne(lossRatio, s, r), selected, below)
  {
    var w := OverOne(lossRatio, s, r);
    var a, b, step := w.backward["p"][0], w.backward["p"][1], w.backward["a"][0];
    assert "a"[0] != "p"[0] && "b"[0] != "p"[0] && "a"[0] != "b"[0];
    Between(s, r);
    assert Offers(w, selected, b, b.score) && Offers(w, selected[..0], b, b.score);
    var i := OfferIsPicked(w, selected, below, b, b.score);
    assert Greedy(w, selected, 0) && Kept(w, selected[0]) && Rooted(selected[..0], selected[0]);
    assert selected[0].id == "b" && selected[0].score == b.score;
    assert [a, step][..1] == [a] && Chain(w, [a]) && Chain(w, [a, step]);
    assert ChainScore(w, [a, step]) == Decay(r, ChainScore(w, [a])) == Decay(r, s);
    assert selected[0] in selected && !Best(w, "b", b.score);
  }

  lemma Between(s: real, r: real)
    requires 0.0 < s && 1.0 < r
    ensures s < Decay((1.0 + r) / 2.0, s) < Decay(r, s)
  {
    var half := (r - 1.0) / 2.0;
    assert half * s > 0.0;
    assert Decay((1.0 + r) / 2.0, s) == s + half * s;
    assert Decay(r, s) == s + 2.0 * (half * s);
  }
}
