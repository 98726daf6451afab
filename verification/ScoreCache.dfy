/** The score cache and the best scores read through it (rrc/score_cache.go,
    rrc/prerequisite_selection.go, rrc/local_context.go). */
module ScoreCache {
  import opened Fingerprint
  import Split
  import Messages

  datatype Serialized = Serialized(fingerprint: string, messageIDs: seq<string>, chunks: seq<LocalChunk>)

  datatype ScoreKey = ScoreKey(fingerprint: string, localIndex: nat, candidate: string, candidateIndex: nat)

  datatype ChunkRef = ChunkRef(messageID: string, chunkIndex: nat, text: string)

  /** What the engine cannot see into: the digest, the stored chunk texts, and a scorer that judges
      each pair of texts on its own. */
  datatype World = World(
    digest: string -> string,
    chunkText: (string, nat) -> string,
    score: (string, string) -> real)

  function FingerprintOf(w: World, c: Context): string {
    w.digest(FingerprintText(c))
  }

  // ----- Serialization -----

  datatype MaybeSerialized = NoQuery | Query(context: Serialized)

  ghost function Texts(cs: seq<LocalChunk>): (ts: seq<string>)
    ensures |ts| == |cs| && forall i :: 0 <= i < |cs| ==> ts[i] == cs[i].text
  {
    seq(|cs|, i requires 0 <= i < |cs| => cs[i].text)
  }

  /** The chunk texts one message contributes. */
  ghost function Pieces(raw: string, cfg: Split.Config): (ts: seq<string>) {
    var chunks := Split.ChunksFrom(Split.PlanOf(Split.Trim(raw), cfg), 0, 0);
    seq(|chunks|, i requires 0 <= i < |chunks| => chunks[i].text)
  }

  /** The query text of the first `n` messages: chunk by chunk, in order, speakers only. */
  ghost function QueryTexts(local: seq<Messages.Message>, currentTurn: string, cfg: Split.Config,
                            project: Messages.Message -> string, n: nat): seq<string>
    requires n <= |local|
  {
    if n == 0 then []
    else
      var before := QueryTexts(local, currentTurn, cfg, project, n - 1);
      if Speaks(local[n - 1], currentTurn, project) then before + Pieces(project(local[n - 1]), cfg) else before
  }

  method SerializeLocalContext(w: World, local: seq<Messages.Message>, currentTurn: string, cfg: Split.Config,
                               project: Messages.Message -> string)
    returns (r: MaybeSerialized)
    ensures r.Query? ==>
              && Numbered(r.context.chunks) && r.context.chunks != []
              && |r.context.messageIDs| == |local| &&
                  (forall i :: 0 <= i < |local| ==> r.context.messageIDs[i] == local[i].id)
              && Texts(r.context.chunks) == QueryTexts(local, currentTurn, cfg, project, |local|)
              && r.context.fingerprint == FingerprintOf(w, Context(r.context.messageIDs, r.context.chunks))
    ensures r.Query? <==> exists i :: 0 <= i < |local| && (currentTurn == "" || local[i].turn == currentTurn) &&
                                      Split.Trim(project(local[i])) != ""
  {
    var ids, chunks := [], [];
    for i := 0 to |local|
      invariant |ids| == i && forall j :: 0 <= j < i ==> ids[j] == local[j].id
      invariant SaidSoFar(local, currentTurn, cfg, project, i, chunks)
    {
      ids := ids + [local[i].id];
      chunks := SerializeMessage(local, currentTurn, cfg, project, i, chunks);
    }
    assert forall i :: 0 <= i < |local| ==>
      (Speaks(local[i], currentTurn, project) <==>
       (currentTurn == "" || local[i].turn == currentTurn) && Split.Trim(project(local[i])) != "");
    if chunks == [] { return NoQuery; }
    r := Query(Serialized(FingerprintOf(w, Context(ids, chunks)), ids, chunks));
  }

  /** The chunks hold what the first `n` messages contribute, and there are some when any does. */
  ghost predicate SaidSoFar(local: seq<Messages.Message>, currentTurn: string, cfg: Split.Config,
                            project: Messages.Message -> string, n: nat, chunks: seq<LocalChunk>)
    requires n <= |local|
  {
    && Numbered(chunks) && Texts(chunks) == QueryTexts(local, currentTurn, cfg, project, n)
    && (chunks != [] <==> exists j :: 0 <= j < n && Speaks(local[j], currentTurn, project))
  }

  method SerializeMessage(local: seq<Messages.Message>, currentTurn: string, cfg: Split.Config,
                          project: Messages.Message -> string, i: nat, chunks0: seq<LocalChunk>)
    returns (chunks: seq<LocalChunk>)
    requires i < |local| && SaidSoFar(local, currentTurn, cfg, project, i, chunks0)
    ensures SaidSoFar(local, currentTurn, cfg, project, i + 1, chunks)
  {
    chunks := chunks0;
    if (currentTurn == "" || local[i].turn == currentTurn) && Split.Trim(project(local[i])) != "" {
      assert Speaks(local[i], currentTurn, project);
      chunks := AppendMessage(chunks, project(local[i]), cfg);
    } else {
      assert !Speaks(local[i], currentTurn, project);
    }
  }

  /** A message that contributes query text: of the turn in flight, if one is given, and not blank. */
  predicate Speaks(m: Messages.Message, currentTurn: string, project: Messages.Message -> string) {
    (currentTurn == "" || m.turn == currentTurn) && Split.Trim(project(m)) != ""
  }

  /** A message that is not blank always gives at least one chunk. */
  method AppendMessage(chunks0: seq<LocalChunk>, text: string, cfg: Split.Config) returns (chunks: seq<LocalChunk>)
    requires Numbered(chunks0) && Split.Trim(text) != ""
    ensures Numbered(chunks) && chunks != [] && Texts(chunks) == Texts(chunks0) + Pieces(text, cfg)
  {
    var raw := Split.Split(text, cfg);
    chunks := AppendChunks(chunks0, raw);
  }

  method AppendChunks(chunks0: seq<LocalChunk>, raw: seq<Split.Chunk>) returns (chunks: seq<LocalChunk>)
    requires Numbered(chunks0)
    ensures Numbered(chunks) && |chunks| == |chunks0| + |raw| && chunks0 <= chunks
    ensures Texts(chunks) == Texts(chunks0) + seq(|raw|, i requires 0 <= i < |raw| => raw[i].text)
  {
    chunks := chunks0;
    for i := 0 to |raw|
      invariant Numbered(chunks) && |chunks| == |chunks0| + i && chunks0 <= chunks
      invariant forall j :: 0 <= j < i ==> chunks[|chunks0| + j].text == raw[j].text
    {
      chunks := chunks + [LocalChunk(|chunks|, raw[i].text)];
    }
  }

  // ----- Consistency -----

  /** The true score behind a cache entry. */
  function Truth(w: World, c: LocalChunk, candidate: string, candidateIndex: nat): real {
    w.score(c.text, w.chunkText(candidate, candidateIndex))
  }

  function KeyFor(w: World, c: Context, i: nat, candidate: string, k: nat): ScoreKey {
    ScoreKey(FingerprintOf(w, c), i, candidate, k)
  }

  /** The cache after the true score of chunk `i` of `c` was written. */
  function Written(w: World, scores: map<ScoreKey, real>, c: Context, i: nat, candidate: string, k: nat)
    : map<ScoreKey, real>
    requires i < |c.chunks|
  {
    scores[KeyFor(w, c, i, candidate, k) := Truth(w, c.chunks[i], candidate, k)]
  }

  /** An entry for chunk `i` of the context `c` says the truth, if it is there. */
  ghost predicate SaysTruth(w: World, scores: map<ScoreKey, real>, c: Context, i: nat, candidate: string, k: nat)
    requires i < |c.chunks|
  {
    var key := KeyFor(w, c, i, candidate, k);
    key in scores ==> scores[key] == Truth(w, c.chunks[i], candidate, k)
  }

  /** Every context of `live`, those the engine meets, reads only its own truth. */
  ghost predicate Consistent(w: World, live: set<Context>, scores: map<ScoreKey, real>) {
    forall c, i: nat, candidate, k {:trigger SaysTruth(w, scores, c, i, candidate, k)} ::
      c in live && i < |c.chunks| ==> SaysTruth(w, scores, c, i, candidate, k)
  }

  /** Where two contexts share a fingerprint, their chunks in the same place score alike. */
  ghost predicate Alike(w: World, c: Context, d: Context) {
    FingerprintOf(w, c) == FingerprintOf(w, d) ==>
      forall i: nat, candidate, k {:trigger Truth(w, c.chunks[i], candidate, k)} ::
        i < |c.chunks| && i < |d.chunks| ==> Truth(w, c.chunks[i], candidate, k) == Truth(w, d.chunks[i], candidate, k)
  }

  ghost predicate Agree(w: World, live: set<Context>) {
    forall c, d {:trigger Alike(w, c, d)} :: c in live && d in live ==> Alike(w, c, d)
  }

  /** Writing a true score keeps the cache consistent: whoever shares the key agrees. */
  lemma WriteKeepsConsistent(w: World, live: set<Context>, scores: map<ScoreKey, real>, c: Context, i: nat,
                             candidate: string, k: nat)
    requires Agree(w, live) && Consistent(w, live, scores) && c in live && i < |c.chunks|
    ensures Consistent(w, live, Written(w, scores, c, i, candidate, k))
  {
    var next := Written(w, scores, c, i, candidate, k);
    forall d, j: nat, x, n | d in live && j < |d.chunks| ensures SaysTruth(w, next, d, j, x, n) {
      assert SaysTruth(w, scores, d, j, x, n) && Alike(w, c, d);
    }
  }

  /** Every true write into a consistent cache keeps it consistent. */
  ghost predicate WritesAreSafe(w: World, live: set<Context>) {
    forall scores, c, i: nat, candidate, k {:trigger Written(w, scores, c, i, candidate, k)} ::
      Consistent(w, live, scores) && c in live && i < |c.chunks| ==>
      Consistent(w, live, Written(w, scores, c, i, candidate, k))
  }

  /** True writes are safe exactly when live contexts that share a fingerprint agree. */
  lemma SafeExactly(w: World, live: set<Context>)
    ensures WritesAreSafe(w, live) <==> Agree(w, live)
  {
    if Agree(w, live) {
      forall scores, c, i: nat, candidate, k | Consistent(w, live, scores) && c in live && i < |c.chunks|
        ensures Consistent(w, live, Written(w, scores, c, i, candidate, k))
      {
        WriteKeepsConsistent(w, live, scores, c, i, candidate, k);
      }
    }
    if WritesAreSafe(w, live) {
      forall c, d | c in live && d in live ensures Alike(w, c, d) {
        SafeIsAlike(w, live, c, d);
      }
    }
  }

  lemma SafeIsAlike(w: World, live: set<Context>, c: Context, d: Context)
    requires WritesAreSafe(w, live) && c in live && d in live
    ensures Alike(w, c, d)
  {
    assert Consistent(w, live, map[]);
    forall i: nat, candidate, k | FingerprintOf(w, c) == FingerprintOf(w, d) && i < |c.chunks| && i < |d.chunks|
      ensures Truth(w, c.chunks[i], candidate, k) == Truth(w, d.chunks[i], candidate, k)
    {
      var scores := Written(w, map[], c, i, candidate, k);
      assert SaysTruth(w, scores, d, i, candidate, k);
    }
  }

  /** The digest tells the texts of the live contexts apart. */
  ghost predicate NoCollision(w: World, live: set<Context>) {
    forall c, d :: c in live && d in live && FingerprintOf(w, c) == FingerprintOf(w, d) ==>
                     FingerprintText(c) == FingerprintText(d)
  }

  /** Sharp contexts agree as long as the digest does not collide on their texts. */
  lemma SharpContextsAgree(w: World, live: set<Context>)
    requires NoCollision(w, live) && forall c :: c in live ==> Serializable(c) && Sharp(c)
    ensures Agree(w, live)
  {
    forall c, d | c in live && d in live ensures Alike(w, c, d) {
      TextNamesContext(c, d);
    }
  }

  /** One chunk that reads like two: whatever the digest, the true score of the one becomes a false
      score of the other when the scorer tells their texts apart. */
  lemma OneChunkFoolsTwo(w: World, a: string, b: string, candidate: string, k: nat)
    returns (one: Context, two: Context)
    requires w.score(a + "\nchunk:1\n" + b, w.chunkText(candidate, k)) != w.score(a, w.chunkText(candidate, k))
    ensures one == Context(["m"], [LocalChunk(0, a + "\nchunk:1\n" + b)])
    ensures two == Context(["m"], [LocalChunk(0, a), LocalChunk(1, b)])
    ensures Consistent(w, {one, two}, map[]) && !Consistent(w, {one, two}, Written(w, map[], one, 0, candidate, k))
  {
    one := Context(["m"], [LocalChunk(0, a + "\nchunk:1\n" + b)]);
    two := Context(["m"], [LocalChunk(0, a), LocalChunk(1, b)]);
    OneChunkReadsLikeTwo(["m"], a, b);
    assert !SaysTruth(w, Written(w, map[], one, 0, candidate, k), two, 0, candidate, k);
  }

  class Cache {
    var scores: map<ScoreKey, real>

    constructor ()
      ensures scores == map[]
    {
      scores := map[];
    }

    method Set(key: ScoreKey, score: real)
      modifies this
      ensures scores == old(scores)[key := score]
    {
      scores := scores[key := score];
    }
  }

  // ----- Best scores -----

  /** One observation: a candidate message and the score one pair of chunks gave it. */
  datatype Observation = Observation(message: string, score: real)

  function Raise(best: map<string, real>, o: Observation): map<string, real> {
    if o.message !in best || o.score > best[o.message] then best[o.message := o.score] else best
  }

  /** Best score per message after a run of observations. */
  function Merge(best: map<string, real>, os: seq<Observation>): map<string, real> {
    if os == [] then best else Raise(Merge(best, os[..|os| - 1]), os[|os| - 1])
  }

  ghost predicate Seen(os: seq<Observation>, m: string) {
    exists o :: o in os && o.message == m
  }

  /** `best` holds for `m` the maximum of its earlier score and its observations, if it has any. */
  ghost predicate BestFor(best0: map<string, real>, os: seq<Observation>, best: map<string, real>, m: string) {
    && (m in best <==> m in best0 || Seen(os, m))
    && (m in best0 ==> m in best && best0[m] <= best[m])
    && (forall o :: o in os && o.message == m ==> m in best && o.score <= best[m])
    && (m in best ==>
          (m in best0 && best[m] == best0[m]) ||
          exists o :: o in os && o.message == m && o.score == best[m])
  }

  /** `best` holds, for each message scored before or observed, the maximum seen. */
  ghost predicate IsBest(best0: map<string, real>, os: seq<Observation>, best: map<string, real>) {
    forall m {:trigger BestFor(best0, os, best, m)} :: BestFor(best0, os, best, m)
  }

  lemma {:induction false} MergeIsBest(best: map<string, real>, os: seq<Observation>)
    ensures IsBest(best, os, Merge(best, os))
  {
    if os != [] {
      var front, o := os[..|os| - 1], os[|os| - 1];
      assert os == front + [o];
      MergeIsBest(best, front);
      RaiseIsBest(best, front, Merge(best, front), o);
    }
  }

  lemma RaiseIsBest(best0: map<string, real>, os: seq<Observation>, best: map<string, real>, o: Observation)
    requires IsBest(best0, os, best)
    ensures IsBest(best0, os + [o], Raise(best, o))
  {
    forall m ensures BestFor(best0, os + [o], Raise(best, o), m) {
      assert BestFor(best0, os, best, m);
      RaiseIsBestFor(best0, os, best, o, m);
    }
  }

  lemma RaiseIsBestFor(best0: map<string, real>, os: seq<Observation>, best: map<string, real>, o: Observation,
                       m: string)
    requires BestFor(best0, os, best, m)
    ensures BestFor(best0, os + [o], Raise(best, o), m)
  {
    var more := os + [o];
    assert o in more && forall x :: x in os ==> x in more;
    assert forall x :: x in more ==> x in os || x == o;
  }

  /** The maximum does not depend on the order of the observations. */
  lemma MergeIgnoresOrder(best: map<string, real>, os: seq<Observation>, os': seq<Observation>)
    requires forall o :: o in os <==> o in os'
    ensures Merge(best, os) == Merge(best, os')
  {
    MergeIsBest(best, os);
    MergeIsBest(best, os');
    var a, b := Merge(best, os), Merge(best, os');
    forall m ensures (m in a <==> m in b) && (m in a ==> a[m] == b[m]) {
      assert BestFor(best, os, a, m) && BestFor(best, os', b, m);
      BestForIsUnique(best, os, os', a, b, m);
    }
  }

  lemma BestForIsUnique(best: map<string, real>, os: seq<Observation>, os': seq<Observation>, a: map<string, real>,
                        b: map<string, real>, m: string)
    requires forall o :: o in os <==> o in os'
    requires BestFor(best, os, a, m) && BestFor(best, os', b, m)
    ensures (m in a <==> m in b) && (m in a ==> a[m] == b[m])
  {
  }
}
