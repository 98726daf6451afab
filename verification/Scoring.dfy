/** Scoring candidates and references through the cache: warm or cold, the numbers are the same
    (rrc/prerequisite_selection.go). */
module Scoring {
  import opened ScoreCache
  import opened Fingerprint

  function ContextOf(local: Serialized): Context {
    Context(local.messageIDs, local.chunks)
  }

  /** The context is a live one, serialized under its own fingerprint. */
  ghost predicate Sound(w: World, live: set<Context>, local: Serialized) {
    && ContextOf(local) in live && Numbered(local.chunks)
    && local.fingerprint == FingerprintOf(w, ContextOf(local))
  }

  ghost predicate Faithful(w: World, refs: seq<ChunkRef>) {
    forall j :: 0 <= j < |refs| ==> refs[j].text == w.chunkText(refs[j].messageID, refs[j].chunkIndex)
  }

  function KeyOf(local: Serialized, i: nat, ref: ChunkRef): ScoreKey
    requires i < |local.chunks|
  {
    ScoreKey(local.fingerprint, local.chunks[i].index, ref.messageID, ref.chunkIndex)
  }

  /** The score a reference has against chunk `i`, whatever the cache holds. */
  function ScoreOf(w: World, local: Serialized, i: nat, ref: ChunkRef): real
    requires i < |local.chunks|
  {
    Truth(w, local.chunks[i], ref.messageID, ref.chunkIndex)
  }

  ghost predicate Extends(before: map<ScoreKey, real>, after: map<ScoreKey, real>) {
    forall k :: k in before ==> k in after && after[k] == before[k]
  }

  lemma ReadIsTrue(w: World, live: set<Context>, scores: map<ScoreKey, real>, local: Serialized, i: nat, ref: ChunkRef)
    requires Consistent(w, live, scores) && Sound(w, live, local) && i < |local.chunks| &&
             KeyOf(local, i, ref) in scores
    ensures scores[KeyOf(local, i, ref)] == ScoreOf(w, local, i, ref)
  {
    assert SaysTruth(w, scores, ContextOf(local), i, ref.messageID, ref.chunkIndex);
  }

  /** The scorer judges a batch pair by pair. */
  function ScoreBatch(w: World, query: string, texts: seq<string>): (scores: seq<real>)
    ensures |scores| == |texts| && forall j :: 0 <= j < |texts| ==> scores[j] == w.score(query, texts[j])
  {
    seq(|texts|, j requires 0 <= j < |texts| => w.score(query, texts[j]))
  }

  /** Reads what the cache has; lists the places it has not. */
  method ReadCached(w: World, ghost live: set<Context>, cache: Cache, local: Serialized, i: nat, refs: seq<ChunkRef>)
    returns (values: seq<real>, uncached: seq<nat>)
    requires Consistent(w, live, cache.scores) && Sound(w, live, local) && i < |local.chunks|
    ensures |values| == |refs| && (forall u :: 0 <= u < |uncached| ==> uncached[u] < |refs|)
    ensures forall j: nat :: j < |refs| && j !in uncached ==> values[j] == ScoreOf(w, local, i, refs[j])
  {
    values, uncached := [], [];
    for j := 0 to |refs|
      invariant |values| == j && forall u :: 0 <= u < |uncached| ==> uncached[u] < j
      invariant forall k: nat :: k < j && k !in uncached ==> values[k] == ScoreOf(w, local, i, refs[k])
    {
      if KeyOf(local, i, refs[j]) in cache.scores {
        ReadIsTrue(w, live, cache.scores, local, i, refs[j]);
        values := values + [cache.scores[KeyOf(local, i, refs[j])]];
      } else {
        values, uncached := values + [0.0], uncached + [j];
      }
    }
  }

  /** Scores every reference against chunk `i`, asking the scorer only for what the cache lacks. */
  method ScoreAll(w: World, ghost live: set<Context>, cache: Cache, local: Serialized, i: nat, refs: seq<ChunkRef>)
    returns (values: seq<real>)
    requires Agree(w, live) && Consistent(w, live, cache.scores) && Sound(w, live, local) && i < |local.chunks| &&
             Faithful(w, refs)
    modifies cache
    ensures Consistent(w, live, cache.scores) && Extends(old(cache.scores), cache.scores)
    ensures |values| == |refs| && forall j :: 0 <= j < |refs| ==> values[j] == ScoreOf(w, local, i, refs[j])
  {
    var uncached;
    values, uncached := ReadCached(w, live, cache, local, i, refs);
    var texts := seq(|uncached|, u requires 0 <= u < |uncached| && uncached[u] < |refs| => refs[uncached[u]].text);
    var scores := ScoreBatch(w, local.chunks[i].text, texts);
    ghost var before := cache.scores;
    for u := 0 to |uncached|
      invariant |values| == |refs| && Consistent(w, live, cache.scores) && Extends(before, cache.scores)
      invariant forall j: nat :: j < |refs| && j !in uncached[u..] ==> values[j] == ScoreOf(w, local, i, refs[j])
    {
      var at := uncached[u];
      assert at in uncached && uncached[u..] == [at] + uncached[u + 1..];
      assert scores[u] == ScoreOf(w, local, i, refs[at]);
      values := values[at := scores[u]];
      if KeyOf(local, i, refs[at]) in before { ReadIsTrue(w, live, before, local, i, refs[at]); }
      WriteKeepsConsistent(w, live, cache.scores, ContextOf(local), i, refs[at].messageID, refs[at].chunkIndex);
      cache.Set(KeyOf(local, i, refs[at]), scores[u]);
    }
  }

  // ----- Best scores per message -----

  /** What chunk `i` says about the references. */
  function Observed(w: World, local: Serialized, i: nat, refs: seq<ChunkRef>): (os: seq<Observation>)
    requires i < |local.chunks|
    ensures |os| == |refs|
  {
    seq(|refs|, j requires 0 <= j < |refs| => Observation(refs[j].messageID, ScoreOf(w, local, i, refs[j])))
  }

  /** Everything the first `n` chunks say about what was retrieved for each. */
  function AllObserved(w: World, local: Serialized, retrieved: seq<seq<ChunkRef>>, n: nat): seq<Observation>
    requires n <= |local.chunks| && n <= |retrieved|
  {
    if n == 0 then [] else AllObserved(w, local, retrieved, n - 1) + Observed(w, local, n - 1, retrieved[n - 1])
  }

  lemma {:induction false} MergeAppends(best: map<string, real>, a: seq<Observation>, b: seq<Observation>)
    ensures Merge(best, a + b) == Merge(Merge(best, a), b)
  {
    if b == [] {
      assert a + b == a;
    } else {
      MergeAppends(best, a, b[..|b| - 1]);
      assert (a + b)[..|a + b| - 1] == a + b[..|b| - 1];
    }
  }

  method MergeValues(ghost w: World, ghost local: Serialized, ghost i: nat, refs: seq<ChunkRef>, values: seq<real>,
                     best0: map<string, real>)
    returns (best: map<string, real>)
    requires i < |local.chunks| && |values| == |refs| && forall j :: 0 <= j < |refs| ==>
                 values[j] == ScoreOf(w, local, i, refs[j])
    ensures best == Merge(best0, Observed(w, local, i, refs))
  {
    best := best0;
    ghost var os := Observed(w, local, i, refs);
    for j := 0 to |refs|
      invariant best == Merge(best0, os[..j])
    {
      assert os[..j + 1][..j] == os[..j];
      if refs[j].messageID !in best || values[j] > best[refs[j].messageID] {
        best := best[refs[j].messageID := values[j]];
      }
    }
    assert os[..|refs|] == os;
  }

  /** Scores what was retrieved for each chunk. The result names no cache: it is the same from any
      consistent one, and the cache stays consistent and keeps what it had. */
  method ScoreRetrieved(w: World, ghost live: set<Context>, cache: Cache, local: Serialized,
                        retrieved: seq<seq<ChunkRef>>,
                        best0: map<string, real>)
    returns (best: map<string, real>)
    requires Agree(w, live) && Consistent(w, live, cache.scores) && Sound(w, live, local)
    requires |retrieved| == |local.chunks| && forall i :: 0 <= i < |retrieved| ==> Faithful(w, retrieved[i])
    modifies cache
    ensures best == Merge(best0, AllObserved(w, local, retrieved, |retrieved|))
    ensures Consistent(w, live, cache.scores) && Extends(old(cache.scores), cache.scores)
  {
    best := best0;
    for i := 0 to |retrieved|
      invariant best == Merge(best0, AllObserved(w, local, retrieved, i))
      invariant Consistent(w, live, cache.scores) && Extends(old(cache.scores), cache.scores)
    {
      var values := ScoreAll(w, live, cache, local, i, retrieved[i]);
      MergeAppends(best0, AllObserved(w, local, retrieved, i), Observed(w, local, i, retrieved[i]));
      best := MergeValues(w, local, i, retrieved[i], values, best);
    }
  }

  /** Scores messages reached by provenance one pair at a time; the order in which each chunk
      meets them is the map's. */
  method ScoreReached(w: World, ghost live: set<Context>, cache: Cache, local: Serialized, reached: seq<seq<ChunkRef>>,
                      best0: map<string, real>)
    returns (best: map<string, real>)
    requires Agree(w, live) && Consistent(w, live, cache.scores) && Sound(w, live, local)
    requires |reached| == |local.chunks| && forall i :: 0 <= i < |reached| ==> Faithful(w, reached[i])
    modifies cache
    ensures best == Merge(best0, AllObserved(w, local, reached, |reached|))
    ensures Consistent(w, live, cache.scores) && Extends(old(cache.scores), cache.scores)
  {
    best := best0;
    for i := 0 to |reached|
      invariant best == Merge(best0, AllObserved(w, local, reached, i))
      invariant Consistent(w, live, cache.scores) && Extends(old(cache.scores), cache.scores)
    {
      MergeAppends(best0, AllObserved(w, local, reached, i), Observed(w, local, i, reached[i]));
      best := ScoreEach(w, live, cache, local, i, reached[i], best);
    }
  }

  method ScoreEach(w: World, ghost live: set<Context>, cache: Cache, local: Serialized, i: nat, refs: seq<ChunkRef>,
                   best0: map<string, real>)
    returns (best: map<string, real>)
    requires Agree(w, live) && Consistent(w, live, cache.scores) && Sound(w, live, local) && i < |local.chunks| &&
             Faithful(w, refs)
    modifies cache
    ensures best == Merge(best0, Observed(w, local, i, refs))
    ensures Consistent(w, live, cache.scores) && Extends(old(cache.scores), cache.scores)
  {
    best := best0;
    ghost var os := Observed(w, local, i, refs);
    for j := 0 to |refs|
      invariant best == Merge(best0, os[..j])
      invariant Consistent(w, live, cache.scores) && Extends(old(cache.scores), cache.scores)
    {
      assert os[..j + 1][..j] == os[..j];
      var key, score := KeyOf(local, i, refs[j]), 0.0;
      if key in cache.scores {
        ReadIsTrue(w, live, cache.scores, local, i, refs[j]);
        score := cache.scores[key];
      } else {
        score := w.score(local.chunks[i].text, refs[j].text);
        WriteKeepsConsistent(w, live, cache.scores, ContextOf(local), i, refs[j].messageID, refs[j].chunkIndex);
        cache.Set(key, score);
      }
      best := Raise(best, Observation(refs[j].messageID, score));
    }
    assert os[..|refs|] == os;
  }

  lemma {:induction false} ObservedHolds(w: World, local: Serialized, retrieved: seq<seq<ChunkRef>>, n: nat,
                                         o: Observation)
    requires n <= |local.chunks| && n <= |retrieved|
    ensures o in AllObserved(w, local, retrieved, n) <==>
              exists i, ref :: 0 <= i < n && ref in retrieved[i] &&
                               o == Observation(ref.messageID, ScoreOf(w, local, i, ref))
  {
    if n > 0 {
      ObservedHolds(w, local, retrieved, n - 1, o);
      var os := Observed(w, local, n - 1, retrieved[n - 1]);
      if ref :| ref in retrieved[n - 1] && o == Observation(ref.messageID, ScoreOf(w, local, n - 1, ref)) {
        var j :| 0 <= j < |retrieved[n - 1]| && retrieved[n - 1][j] == ref;
        assert os[j] == o;
      }
      if o in os {
        var j :| 0 <= j < |os| && os[j] == o;
        assert retrieved[n - 1][j] in retrieved[n - 1];
      }
    }
  }

  /** Meeting the same references in another order, chunk by chunk, changes no best score. */
  lemma ReachedInAnyOrder(w: World, local: Serialized, a: seq<seq<ChunkRef>>, b: seq<seq<ChunkRef>>,
                          best: map<string, real>)
    requires |a| == |b| == |local.chunks| && forall i, ref :: 0 <= i < |a| ==> (ref in a[i] <==> ref in b[i])
    ensures Merge(best, AllObserved(w, local, a, |a|)) == Merge(best, AllObserved(w, local, b, |b|))
  {
    forall o ensures o in AllObserved(w, local, a, |a|) <==> o in AllObserved(w, local, b, |b|) {
      ObservedHolds(w, local, a, |a|, o);
      ObservedHolds(w, local, b, |b|, o);
    }
    MergeIgnoresOrder(best, AllObserved(w, local, a, |a|), AllObserved(w, local, b, |b|));
  }

  // ----- The reference floor -----

  datatype Level = Lowest | At(value: real)

  function Higher(a: Level, value: real): Level {
    if a.Lowest? || value > a.value then At(value) else a
  }

  /** Best score of a reference over the first `n` chunks. */
  function Floor(w: World, local: Serialized, n: nat, ref: ChunkRef): Level
    requires n <= |local.chunks|
  {
    if n == 0 then Lowest else Higher(Floor(w, local, n - 1, ref), ScoreOf(w, local, n - 1, ref))
  }

  lemma {:induction false} FloorIsMaximum(w: World, local: Serialized, n: nat, ref: ChunkRef)
    requires 0 < n <= |local.chunks|
    ensures Floor(w, local, n, ref).At?
    ensures forall i: nat :: i < n ==> ScoreOf(w, local, i, ref) <= Floor(w, local, n, ref).value
    ensures exists i: nat :: i < n && ScoreOf(w, local, i, ref) == Floor(w, local, n, ref).value
  {
    assert Floor(w, local, n, ref) == Higher(Floor(w, local, n - 1, ref), ScoreOf(w, local, n - 1, ref));
    if n > 1 { FloorIsMaximum(w, local, n - 1, ref); }
  }

  method ReferenceFloor(w: World, ghost live: set<Context>, cache: Cache, local: Serialized, refs: seq<ChunkRef>)
    returns (best: seq<Level>)
    requires Agree(w, live) && Consistent(w, live, cache.scores) && Sound(w, live, local) && Faithful(w, refs)
    modifies cache
    ensures |best| == |refs| && forall r :: 0 <= r < |refs| ==> best[r] == Floor(w, local, |local.chunks|, refs[r])
    ensures Consistent(w, live, cache.scores) && Extends(old(cache.scores), cache.scores)
  {
    best := seq(|refs|, _ => Lowest);
    for i := 0 to |local.chunks|
      invariant |best| == |refs| && forall r :: 0 <= r < |refs| ==> best[r] == Floor(w, local, i, refs[r])
      invariant Consistent(w, live, cache.scores) && Extends(old(cache.scores), cache.scores)
    {
      var values := ScoreAll(w, live, cache, local, i, refs);
      best := LiftAll(best, values);
    }
  }

  method LiftAll(best0: seq<Level>, values: seq<real>) returns (best: seq<Level>)
    requires |values| == |best0|
    ensures |best| == |best0| && forall r :: 0 <= r < |best| ==> best[r] == Higher(best0[r], values[r])
  {
    best := best0;
    for r := 0 to |best0|
      invariant |best| == |best0|
      invariant forall k :: 0 <= k < r ==> best[k] == Higher(best0[k], values[k])
      invariant forall k :: r <= k < |best| ==> best[k] == best0[k]
    {
      if best[r].Lowest? || values[r] > best[r].value { best := best[r := At(values[r])]; }
    }
  }
}
