/** Novelty reranking of a selection (rrc/engine.go, ApplyMMR). */
module Mmr {
  import opened Sorting

  /** A selected message; `tag` stands for everything the reranking carries along untouched. */
  datatype Item = Item(id: string, score: real, tag: int)

  type Vec = seq<real>

  /** What the reranking reads: stored vectors, the query's vectors, similarity, original scores. */
  datatype View = View(vecs: map<string, Vec>, queries: seq<Vec>, sim: (Vec, Vec) -> real, original: map<string, real>)

  // ----- Novel value -----

  function Max(a: real, b: real): real {
    if b > a then b else a
  }

  /** Largest similarity to the query, at least zero. */
  function ToQuery(v: View, cand: Vec, n: nat): (s: real)
    requires n <= |v.queries|
    ensures s >= 0.0
  {
    if n == 0 then 0.0 else Max(ToQuery(v, cand, n - 1), v.sim(cand, v.queries[n - 1]))
  }

  /** ... and to the messages kept so far; a message without a vector is redundant with nothing. */
  function ToKept(v: View, cand: Vec, kept: seq<string>): (s: real)
    ensures s >= 0.0
  {
    if kept == [] then ToQuery(v, cand, |v.queries|)
    else
      var k := kept[|kept| - 1];
      var rest := ToKept(v, cand, kept[..|kept| - 1]);
      if k in v.vecs then Max(rest, v.sim(cand, v.vecs[k])) else rest
  }

  /** Redundancy in [0, 1]. */
  function Redundancy(v: View, id: string, kept: seq<string>): (s: real)
    ensures 0.0 <= s <= 1.0
  {
    if id !in v.vecs then 0.0
    else
      var s := ToKept(v, v.vecs[id], kept);
      if s > 1.0 then 1.0 else s
  }

  lemma {:induction false} ToQueryIsMaximum(v: View, cand: Vec, n: nat)
    requires n <= |v.queries|
    ensures forall i :: 0 <= i < n ==> v.sim(cand, v.queries[i]) <= ToQuery(v, cand, n)
    ensures ToQuery(v, cand, n) == 0.0 || exists i :: 0 <= i < n && v.sim(cand, v.queries[i]) == ToQuery(v, cand, n)
  {
    if n > 0 { ToQueryIsMaximum(v, cand, n - 1); }
  }

  /** Redundancy before it is capped: no query vector and no kept message's vector is more similar,
      and it is zero or the similarity of one of them. */
  lemma {:induction false} ToKeptIsMaximum(v: View, cand: Vec, kept: seq<string>)
    ensures forall q :: q in v.queries ==> v.sim(cand, q) <= ToKept(v, cand, kept)
    ensures forall k :: k in kept && k in v.vecs ==> v.sim(cand, v.vecs[k]) <= ToKept(v, cand, kept)
    ensures ToKept(v, cand, kept) == 0.0 || (exists q :: q in v.queries && v.sim(cand, q) == ToKept(v, cand, kept)) ||
            (exists k :: k in kept && k in v.vecs && v.sim(cand, v.vecs[k]) == ToKept(v, cand, kept))
  {
    if kept == [] {
      ToQueryIsMaximum(v, cand, |v.queries|);
    } else {
      var front, k := kept[..|kept| - 1], kept[|kept| - 1];
      assert kept == front + [k];
      ToKeptIsMaximum(v, cand, front);
    }
  }

  /** The redundancy of a message is the largest similarity of its vector to a query vector or a kept
      message's vector, between 0 and 1; a message without a vector has none. Its novel value is its
      original score less that share. */
  lemma NovelIsShare(v: View, id: string, kept: seq<string>)
    ensures id !in v.vecs ==> Redundancy(v, id, kept) == 0.0
    ensures id in v.vecs ==>
              (forall q :: q in v.queries && v.sim(v.vecs[id], q) <= 1.0 ==>
                 v.sim(v.vecs[id], q) <= Redundancy(v, id, kept)) &&
              (forall k :: k in kept && k in v.vecs && v.sim(v.vecs[id], v.vecs[k]) <= 1.0 ==>
                 v.sim(v.vecs[id], v.vecs[k]) <= Redundancy(v, id, kept))
    ensures id in v.vecs && Redundancy(v, id, kept) != 0.0 ==>
              (exists q :: q in v.queries && Capped(v.sim(v.vecs[id], q)) == Redundancy(v, id, kept)) ||
              (exists k :: k in kept && k in v.vecs && Capped(v.sim(v.vecs[id], v.vecs[k])) == Redundancy(v, id, kept))
    ensures Novel(v, id, kept) ==
            (if id in v.original then v.original[id] else 0.0) * (1.0 - Redundancy(v, id, kept))
  {
    if id in v.vecs { ToKeptIsMaximum(v, v.vecs[id], kept); }
  }

  ghost function Capped(s: real): real {
    if s > 1.0 then 1.0 else s
  }

  function Original(v: View, id: string): real {
    if id in v.original then v.original[id] else 0.0
  }

  /** The part of a message's score that neither the query nor the kept messages already cover. */
  function Novel(v: View, id: string, kept: seq<string>): real {
    Original(v, id) * (1.0 - Redundancy(v, id, kept))
  }

  ghost predicate NonNegative(v: View) {
    forall id :: id in v.original ==> v.original[id] >= 0.0
  }

  lemma ShareInRange(a: real, r: real)
    requires a >= 0.0 && 0.0 <= r <= 1.0
    ensures 0.0 <= a * (1.0 - r) <= a
  {
    assert a * (1.0 - r) == a - a * r;
    assert a * r >= 0.0;
    assert a * (1.0 - r) >= 0.0;
  }

  lemma ShareFalls(a: real, r: real, r': real)
    requires a >= 0.0 && r <= r'
    ensures a * (1.0 - r') <= a * (1.0 - r)
  {
    assert a * (r' - r) >= 0.0;
    assert a * (1.0 - r) - a * (1.0 - r') == a * (r' - r);
  }

  lemma NovelInRange(v: View, id: string, kept: seq<string>)
    requires NonNegative(v)
    ensures 0.0 <= Novel(v, id, kept) <= Original(v, id)
  {
    ShareInRange(Original(v, id), Redundancy(v, id, kept));
  }

  /** Keeping one more message never makes another more novel. */
  lemma NovelFalls(v: View, id: string, kept: seq<string>, k: string)
    requires NonNegative(v)
    ensures Novel(v, id, kept + [k]) <= Novel(v, id, kept)
  {
    assert (kept + [k])[..|kept|] == kept;
    ShareFalls(Original(v, id), Redundancy(v, id, kept), Redundancy(v, id, kept + [k]));
  }

  // ----- The greedy order -----

  function IdsOf(xs: seq<Item>): (ids: seq<string>)
    ensures |ids| == |xs| && forall i :: 0 <= i < |xs| ==> ids[i] == xs[i].id
  {
    seq(|xs|, i requires 0 <= i < |xs| => xs[i].id)
  }

  /** Items up to their scores. */
  function Face(x: Item): (string, int) {
    (x.id, x.tag)
  }

  function Faces(xs: seq<Item>): (fs: seq<(string, int)>)
    ensures |fs| == |xs| && forall i :: 0 <= i < |xs| ==> fs[i] == Face(xs[i])
  {
    seq(|xs|, i requires 0 <= i < |xs| => Face(xs[i]))
  }

  /** Each picked message beat every later one on novel value at the time, and carries it. */
  ghost predicate GreedyAt(v: View, out: seq<Item>, later: seq<Item>, k: nat)
    requires k < |out|
  {
    && out[k].score == Novel(v, out[k].id, IdsOf(out[..k]))
    && (forall j :: k < j < |out| ==> Novel(v, out[j].id, IdsOf(out[..k])) <= out[k].score)
    && (forall x :: x in later ==> Novel(v, x.id, IdsOf(out[..k])) <= out[k].score)
  }

  ghost predicate Greedy(v: View, out: seq<Item>, later: seq<Item>) {
    forall k {:trigger GreedyAt(v, out, later, k)} :: 0 <= k < |out| ==> GreedyAt(v, out, later, k)
  }

  ghost predicate NonIncreasing(out: seq<Item>) {
    forall i, j :: 0 <= i < j < |out| ==> out[i].score >= out[j].score
  }

  lemma {:induction false} GreedyIsOrdered(v: View, out: seq<Item>, i: nat, j: nat)
    requires NonNegative(v) && Greedy(v, out, []) && i < j < |out|
    ensures out[i].score >= out[j].score
    decreases j - i
  {
    assert GreedyAt(v, out, [], i) && GreedyAt(v, out, [], j);
    StillNovel(v, out, i, j, out[j].id);
  }

  /** What a message is worth late is no more than what it was worth earlier. */
  lemma {:induction false} StillNovel(v: View, out: seq<Item>, i: nat, j: nat, id: string)
    requires NonNegative(v) && i <= j <= |out|
    ensures Novel(v, id, IdsOf(out[..j])) <= Novel(v, id, IdsOf(out[..i]))
    decreases j - i
  {
    if i < j {
      StillNovel(v, out, i, j - 1, id);
      assert IdsOf(out[..j]) == IdsOf(out[..j - 1]) + [out[j - 1].id];
      NovelFalls(v, id, IdsOf(out[..j - 1]), out[j - 1].id);
    }
  }

  // ----- The loop -----

  /** Place of the first message of greatest novel value among the first `n`. */
  function FirstBest(v: View, xs: seq<Item>, kept: seq<string>, n: nat): (at: nat)
    requires 0 < n <= |xs|
    ensures at < n
  {
    if n == 1 then 0
    else
      var b := FirstBest(v, xs, kept, n - 1);
      if Novel(v, xs[n - 1].id, kept) > Novel(v, xs[b].id, kept) then n - 1 else b
  }

  /** The greedy order, ties going to the message that comes first in `remaining`. */
  ghost function Run(v: View, out: seq<Item>, remaining: seq<Item>): seq<Item>
    decreases |remaining|
  {
    if remaining == [] then out
    else
      var at := FirstBest(v, remaining, IdsOf(out), |remaining|);
      Run(v, out + [remaining[at].(score := Novel(v, remaining[at].id, IdsOf(out)))], Without(remaining, at))
  }

  method MostNovel(v: View, remaining: seq<Item>, kept: seq<string>) returns (at: nat, best: real)
    requires remaining != []
    ensures at < |remaining| && best == Novel(v, remaining[at].id, kept)
    ensures forall j :: 0 <= j < |remaining| ==> Novel(v, remaining[j].id, kept) <= best
    ensures at == FirstBest(v, remaining, kept, |remaining|)
  {
    at, best := 0, Novel(v, remaining[0].id, kept);
    for i := 1 to |remaining|
      invariant at < i && best == Novel(v, remaining[at].id, kept)
      invariant forall j :: 0 <= j < i ==> Novel(v, remaining[j].id, kept) <= best
      invariant at == FirstBest(v, remaining, kept, i)
    {
      var eff := Novel(v, remaining[i].id, kept);
      if eff > best { at, best := i, eff; }
    }
  }

  function Without(xs: seq<Item>, at: nat): seq<Item>
    requires at < |xs|
  {
    xs[..at] + xs[at + 1..]
  }

  lemma WithoutFaces(xs: seq<Item>, at: nat)
    requires at < |xs|
    ensures multiset(Faces(xs)) == multiset(Faces(Without(xs, at))) + multiset{Face(xs[at])}
    ensures forall x :: x in Without(xs, at) ==> x in xs
  {
    var fs := Faces(xs);
    assert fs == fs[..at] + [fs[at]] + fs[at + 1..];
    assert Faces(Without(xs, at)) == fs[..at] + fs[at + 1..];
  }

  lemma PickKeepsGreedy(v: View, out: seq<Item>, remaining: seq<Item>, at: nat, best: real)
    requires Greedy(v, out, remaining) && at < |remaining| && best == Novel(v, remaining[at].id, IdsOf(out))
    requires forall j :: 0 <= j < |remaining| ==> Novel(v, remaining[j].id, IdsOf(out)) <= best
    ensures Greedy(v, out + [remaining[at].(score := best)], Without(remaining, at))
  {
    var pick := remaining[at].(score := best);
    var more, rest := out + [pick], Without(remaining, at);
    WithoutFaces(remaining, at);
    forall k | 0 <= k < |more| ensures GreedyAt(v, more, rest, k) {
      if k < |out| {
        assert GreedyAt(v, out, remaining, k) && more[..k] == out[..k];
        assert remaining[at] in remaining;
      } else {
        assert more[..k] == out;
        forall x | x in rest ensures Novel(v, x.id, IdsOf(out)) <= best {
          assert x in remaining;
        }
      }
    }
  }

  /** What a reranking returns: the same messages, each carrying its novel value, greedily picked. */
  ghost predicate Reranked(v: View, selected: seq<Item>, out: seq<Item>) {
    && multiset(Faces(out)) == multiset(Faces(selected))
    && Greedy(v, out, []) && NonIncreasing(out)
    && (forall x :: x in out ==> 0.0 <= x.score <= Original(v, x.id))
  }

  lemma GreedyIsReranked(v: View, selected: seq<Item>, out: seq<Item>)
    requires NonNegative(v) && Greedy(v, out, []) && multiset(Faces(out)) == multiset(Faces(selected))
    ensures Reranked(v, selected, out)
  {
    forall i, j | 0 <= i < j < |out| ensures out[i].score >= out[j].score { GreedyIsOrdered(v, out, i, j); }
    forall x | x in out ensures 0.0 <= x.score <= Original(v, x.id) {
      var k :| 0 <= k < |out| && out[k] == x;
      assert GreedyAt(v, out, [], k);
      NovelInRange(v, x.id, IdsOf(out[..k]));
    }
  }

  lemma FacesJoin(a: seq<Item>, b: seq<Item>)
    ensures Faces(a + b) == Faces(a) + Faces(b)
  {
  }

  lemma {:induction false} FacesPermute(a: seq<Item>, b: seq<Item>)
    requires multiset(a) == multiset(b)
    ensures multiset(Faces(a)) == multiset(Faces(b))
    decreases |a|
  {
    if a == [] {
      assert |multiset(b)| == |b|;
    } else {
      var i := RemoveOne(a, b);
      var front := a[..|a| - 1];
      FacesPermute(front, Without(b, i));
      WithoutFaces(b, i);
      WithoutFaces(a, |a| - 1);
      assert Without(a, |a| - 1) == front;
    }
  }

  /** Scores by id, the last one winning for an id that occurs twice. */
  ghost function LastScores(selected: seq<Item>): map<string, real> {
    if selected == [] then map[]
    else
      var last := selected[|selected| - 1];
      LastScores(selected[..|selected| - 1])[last.id := last.score]
  }

  lemma {:induction false} LastScoresAre(selected: seq<Item>)
    ensures forall i :: 0 <= i < |selected| ==> selected[i].id in LastScores(selected)
    ensures forall id :: id in LastScores(selected) ==>
              exists i :: 0 <= i < |selected| && selected[i].id == id && selected[i].score == LastScores(selected)[id]
  {
    if selected != [] { LastScoresAre(selected[..|selected| - 1]); }
  }

  method Originals(selected: seq<Item>) returns (original: map<string, real>)
    ensures original == LastScores(selected)
  {
    original := map[];
    for i := 0 to |selected|
      invariant original == LastScores(selected[..i])
    {
      assert selected[..i + 1][..i] == selected[..i];
      original := original[selected[i].id := selected[i].score];
    }
    assert selected[..|selected|] == selected;
  }

  /** The stored vectors of the query, in its order. */
  ghost function QueriesOf(vecs: map<string, Vec>, ids: seq<string>): seq<Vec> {
    if ids == [] then []
    else
      var id, rest := ids[|ids| - 1], QueriesOf(vecs, ids[..|ids| - 1]);
      if id in vecs then rest + [vecs[id]] else rest
  }

  method QueryVectors(vecs: map<string, Vec>, queryIDs: seq<string>) returns (queries: seq<Vec>)
    ensures queries == QueriesOf(vecs, queryIDs)
  {
    queries := [];
    for j := 0 to |queryIDs|
      invariant queries == QueriesOf(vecs, queryIDs[..j])
    {
      assert queryIDs[..j + 1][..j] == queryIDs[..j];
      if queryIDs[j] in vecs { queries := queries + [vecs[queryIDs[j]]]; }
    }
    assert queryIDs[..|queryIDs|] == queryIDs;
  }

  ghost predicate DistinctIds(xs: seq<Item>) {
    forall i, j :: 0 <= i < j < |xs| ==> xs[i].id != xs[j].id
  }

  /** Every item still carries its original score. */
  ghost predicate Untouched(v: View, xs: seq<Item>) {
    forall x :: x in xs ==> x.score == Original(v, x.id)
  }

  /** Before anything is kept and without a query, a message is as novel as it scored. */
  lemma NothingIsRedundant(v: View, id: string)
    requires v.queries == []
    ensures Novel(v, id, []) == Original(v, id)
  {
  }

  /** The first pick: its score is rewritten only when there is a query to be novel against. */
  method PickFirst(v: View, remaining: seq<Item>) returns (pick: Item, at: nat)
    requires remaining != []
    ensures at < |remaining| && Face(pick) == Face(remaining[at]) && at == FirstBest(v, remaining, [], |remaining|)
    ensures v.queries == [] ==> pick == remaining[at]
    ensures v.queries != [] || remaining[at].score == Original(v, remaining[at].id) ==>
              && pick == remaining[at].(score := Novel(v, remaining[at].id, []))
              && forall j :: 0 <= j < |remaining| ==> Novel(v, remaining[j].id, []) <= pick.score
  {
    var best;
    at, best := MostNovel(v, remaining, []);
    pick := remaining[at];
    if v.queries != [] {
      pick := pick.(score := best);
    } else {
      NothingIsRedundant(v, pick.id);
    }
  }

  method PickRest(v: View, out0: seq<Item>, remaining0: seq<Item>) returns (out: seq<Item>)
    ensures multiset(Faces(out)) == multiset(Faces(out0)) + multiset(Faces(remaining0))
    ensures Greedy(v, out0, remaining0) ==> Greedy(v, out, [])
    ensures out == Run(v, out0, remaining0) && out0 <= out
  {
    out := out0;
    var remaining := remaining0;
    while remaining != []
      invariant multiset(Faces(out)) + multiset(Faces(remaining)) == multiset(Faces(out0)) + multiset(Faces(remaining0))
      invariant Greedy(v, out0, remaining0) ==> Greedy(v, out, remaining)
      invariant Run(v, out, remaining) == Run(v, out0, remaining0) && out0 <= out
      decreases |remaining|
    {
      var at, best := MostNovel(v, remaining, IdsOf(out));
      var pick := remaining[at].(score := best);
      if Greedy(v, out0, remaining0) { PickKeepsGreedy(v, out, remaining, at, best); }
      WithoutFaces(remaining, at);
      FacesJoin(out, [pick]);
      assert Faces([pick]) == [Face(remaining[at])];
      out, remaining := out + [pick], Without(remaining, at);
    }
    assert Faces([]) == [];
  }

  /** Reorders and rescores a selection by novelty. Without vectors, or with at most one message,
      the selection comes back as it was. */
  method ApplyMMR(selected: seq<Item>, queryIDs: seq<string>, vecs: map<string, Vec>, sim: (Vec, Vec) -> real)
    returns (out: seq<Item>, ghost v: View)
    requires forall x :: x in selected ==> x.score >= 0.0
    ensures multiset(Faces(out)) == multiset(Faces(selected))
    ensures |selected| <= 1 || vecs == map[] ==> out == selected
    ensures |selected| > 1 && vecs != map[] ==>
              && v == View(vecs, QueriesOf(vecs, queryIDs), sim, LastScores(selected))
              && (Reranked(v, selected, out) <==> v.queries != [] || HeadIsTrue(v, selected))
              && (Reranked(v, selected, out) ==> out == Run(v, [], ByScore(v, selected)))
              && (DistinctIds(selected) ==> HeadIsTrue(v, selected))
  {
    var original := Originals(selected);
    v := View(vecs, [], sim, original);
    if |selected| <= 1 || vecs == map[] { return selected, v; }
    var queries := QueryVectors(vecs, queryIDs);
    var view := View(vecs, queries, sim, original);
    v := view;
    LastScoresAre(selected);
    OriginalsHold(view, selected);
    if DistinctIds(selected) { ByScoreHead(view, selected); }
    out := PickAll(view, selected);
  }

  /** The message of highest original score carries that score itself. */
  ghost predicate HeadIsTrue(v: View, selected: seq<Item>) {
    var order := ByScore(v, selected);
    order != [] && order[0].score == Original(v, order[0].id)
  }

  /** Highest original score first; a tie keeps the input's order. */
  function ByScore(v: View, selected: seq<Item>): seq<Item> {
    Sort((a: Item, b: Item) => Original(v, a.id) >= Original(v, b.id), selected)
  }

  lemma ByScorePermutes(v: View, selected: seq<Item>)
    ensures |ByScore(v, selected)| == |selected| && multiset(Faces(ByScore(v, selected))) == multiset(Faces(selected))
    ensures Untouched(v, selected) ==> Untouched(v, ByScore(v, selected))
  {
    SortMembers((a: Item, b: Item) => Original(v, a.id) >= Original(v, b.id), selected);
    FacesPermute(ByScore(v, selected), selected);
  }

  lemma ByScoreHead(v: View, selected: seq<Item>)
    requires selected != []
    ensures |ByScore(v, selected)| == |selected| && ByScore(v, selected)[0] in selected
    ensures forall j :: 0 <= j < |selected| ==>
                Original(v, ByScore(v, selected)[j].id) <= Original(v, ByScore(v, selected)[0].id)
  {
    var le := (a: Item, b: Item) => Original(v, a.id) >= Original(v, b.id);
    SortSorts(le, selected);
    SortMembers(le, selected);
    forall j | 0 <= j < |selected|
      ensures Original(v, ByScore(v, selected)[j].id) <= Original(v, ByScore(v, selected)[0].id)
    {
      assert j > 0 ==> le(ByScore(v, selected)[0], ByScore(v, selected)[j]);
    }
    assert ByScore(v, selected)[0] in ByScore(v, selected);
  }

  /** Without a query the first pick is the message of highest original score. */
  lemma {:induction false} FirstBestIsHead(v: View, xs: seq<Item>, n: nat)
    requires v.queries == [] && 0 < n <= |xs| && forall j :: 0 <= j < |xs| ==>
                 Original(v, xs[j].id) <= Original(v, xs[0].id)
    ensures FirstBest(v, xs, [], n) == 0
  {
    if n > 1 {
      FirstBestIsHead(v, xs, n - 1);
      NothingIsRedundant(v, xs[n - 1].id);
      NothingIsRedundant(v, xs[0].id);
    }
  }

  lemma RunStarts(v: View, remaining: seq<Item>, at: nat, pick: Item)
    requires remaining != [] && at == FirstBest(v, remaining, [], |remaining|)
    ensures pick == remaining[at].(score := Novel(v, remaining[at].id, [])) ==>
              Run(v, [], remaining) == Run(v, [pick], Without(remaining, at))
  {
    assert IdsOf([]) == [] && [] + [pick] == [pick];
  }

  method PickAll(v: View, selected: seq<Item>) returns (out: seq<Item>)
    requires NonNegative(v) && selected != []
    ensures multiset(Faces(out)) == multiset(Faces(selected))
    ensures Reranked(v, selected, out) <==> v.queries != [] || HeadIsTrue(v, selected)
    ensures Reranked(v, selected, out) ==> out == Run(v, [], ByScore(v, selected))
  {
    var remaining := ByScore(v, selected);
    ByScorePermutes(v, selected);
    var pick, at := PickFirst(v, remaining);
    FirstIsGreedy(v, remaining, at, pick);
    WithoutFaces(remaining, at);
    assert Faces([pick]) == [Face(remaining[at])];
    out := PickRest(v, [pick], Without(remaining, at));
    RunStarts(v, remaining, at, pick);
    ByScoreHead(v, selected);
    if v.queries == [] { FirstBestIsHead(v, remaining, |remaining|); }
    if v.queries != [] || HeadIsTrue(v, selected) {
      GreedyIsReranked(v, selected, out);
    } else {
      FalseHeadShows(v, selected, remaining[0], out);
    }
  }

  /** A first pick that keeps a score not its own is not a reranking. */
  lemma FalseHeadShows(v: View, selected: seq<Item>, head: Item, out: seq<Item>)
    requires v.queries == [] && [head] <= out && head.score != Original(v, head.id)
    ensures !Reranked(v, selected, out)
  {
    NothingIsRedundant(v, head.id);
    assert out[..0] == [] && IdsOf([]) == [] && out[0] == head;
    assert !GreedyAt(v, out, [], 0);
  }

  /** Two entries of one id and no query: the first pick keeps 5, although the id's score is 1. */
  lemma RepeatedIdKeepsItsScore(v: View)
    requires var twice := [Item("A", 5.0, 0), Item("A", 1.0, 1)]; v.queries == [] && v.original == LastScores(twice)
    ensures var twice := [Item("A", 5.0, 0), Item("A", 1.0, 1)]; !HeadIsTrue(v, twice) && Original(v, "A") == 1.0
  {
    var a, b := Item("A", 5.0, 0), Item("A", 1.0, 1);
    assert [a, b][..1] == [a] && [a][..0] == [];
    var le := (x: Item, y: Item) => Original(v, x.id) >= Original(v, y.id);
    assert Sort(le, []) == [] && Insert(le, [], a) == [a];
    assert Sort(le, [a]) == [a];
    assert Insert(le, [a], b) == [a] + [b];
    assert Sort(le, [a, b]) == [a, b];
  }

  lemma OriginalsHold(v: View, selected: seq<Item>)
    requires forall x :: x in selected ==> x.score >= 0.0
    requires forall i :: 0 <= i < |selected| ==> selected[i].id in v.original
    requires forall id :: id in v.original ==>
                 exists i :: 0 <= i < |selected| && selected[i].id == id && selected[i].score == v.original[id]
    ensures NonNegative(v) && (DistinctIds(selected) ==> Untouched(v, selected))
  {
    forall id | id in v.original ensures v.original[id] >= 0.0 {
      var i :| 0 <= i < |selected| && selected[i].id == id && selected[i].score == v.original[id];
      assert selected[i] in selected;
    }
  }

  lemma FirstIsGreedy(v: View, remaining: seq<Item>, at: nat, pick: Item)
    requires at < |remaining|
    ensures && pick == remaining[at].(score := Novel(v, remaining[at].id, []))
            && (forall j :: 0 <= j < |remaining| ==> Novel(v, remaining[j].id, []) <= pick.score)
            ==> Greedy(v, [pick], Without(remaining, at))
  {
    if pick == remaining[at].(score := Novel(v, remaining[at].id, [])) &&
       (forall j :: 0 <= j < |remaining| ==> Novel(v, remaining[j].id, []) <= pick.score)
    {
      assert IdsOf([]) == [];
      PickKeepsGreedy(v, [], remaining, at, pick.score);
      assert [] + [pick] == [pick];
    }
  }
}
