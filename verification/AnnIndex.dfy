/** The partitioned vector index: one shared store, a global graph and one graph per thread
    (service/annindex/index.go), and why routing by thread changes no result
    (rrc/predicate.go). */
module AnnIndex {
  import opened Hnsw
  import opened HnswGraph
  import opened Sorting
  import Predicate
  import Quant

  // ----- Populations -----

  /** The vectors of one thread among the first `n`, in order of arrival. */
  ghost function VidsOf(threads: seq<string>, thread: string, n: nat): seq<int>
    requires n <= |threads|
  {
    if n == 0 then []
    else if threads[n - 1] == thread then VidsOf(threads, thread, n - 1) + [n - 1]
    else VidsOf(threads, thread, n - 1)
  }

  ghost function AllVids(n: nat): seq<int> {
    if n == 0 then [] else AllVids(n - 1) + [n - 1]
  }

  lemma {:induction false} AllVidsAre(n: nat)
    ensures |AllVids(n)| == n && forall i :: 0 <= i < n ==> AllVids(n)[i] == i
  {
    if n > 0 { AllVidsAre(n - 1); }
  }

  lemma {:induction false} VidsOfAre(threads: seq<string>, thread: string, n: nat)
    requires n <= |threads|
    ensures forall v :: v in VidsOf(threads, thread, n) <==> 0 <= v < n && threads[v] == thread
    ensures Distinct(VidsOf(threads, thread, n))
  {
    if n > 0 { VidsOfAre(threads, thread, n - 1); }
  }

  lemma {:induction false} VidsOfGrows(threads: seq<string>, t: string, thread: string, n: nat)
    requires n <= |threads|
    ensures VidsOf(threads + [t], thread, n) == VidsOf(threads, thread, n)
  {
    if n > 0 { VidsOfGrows(threads, t, thread, n - 1); }
  }

  /** The vectors whose candidate passes the filter, in order. */
  ghost function Matching(vids: seq<int>, pass: int -> bool): seq<int> {
    if vids == [] then []
    else
      var v := vids[|vids| - 1];
      if pass(v) then Matching(vids[..|vids| - 1], pass) + [v] else Matching(vids[..|vids| - 1], pass)
  }

  lemma MatchingSnoc(vids: seq<int>, v: int, pass: int -> bool)
    ensures Matching(vids + [v], pass) == if pass(v) then Matching(vids, pass) + [v] else Matching(vids, pass)
  {
    assert (vids + [v])[..|vids|] == vids;
  }

  /** Filtering one thread's vectors equals filtering all of them, for a filter that passes
      nothing else. */
  lemma {:induction false} PartitionSuffices(threads: seq<string>, thread: string, n: nat, pass: int -> bool)
    requires n <= |threads| && forall v :: 0 <= v < n && pass(v) ==> threads[v] == thread
    ensures Matching(VidsOf(threads, thread, n), pass) == Matching(AllVids(n), pass)
  {
    if n > 0 {
      PartitionSuffices(threads, thread, n - 1, pass);
      MatchingSnoc(AllVids(n - 1), n - 1, pass);
      PartStep(threads, thread, n - 1, pass);
    }
  }

  lemma PartStep(threads: seq<string>, thread: string, n: nat, pass: int -> bool)
    requires n < |threads| && (pass(n) ==> threads[n] == thread)
    ensures Matching(VidsOf(threads, thread, n + 1), pass) ==
            if pass(n) then Matching(VidsOf(threads, thread, n), pass) + [n]
               else Matching(VidsOf(threads, thread, n), pass)
  {
    MatchingSnoc(VidsOf(threads, thread, n), n, pass);
  }

  /** Routing a pinned predicate to its thread's vectors drops no match and adds none. */
  lemma RoutingIsExact(threads: seq<string>, attrs: int -> Predicate.Attrs, p: Predicate.Predicate)
    requires Predicate.ThreadScopeOf(p).Pinned?
    requires forall v :: 0 <= v < |threads| ==> attrs(v).threadID == threads[v]
    ensures var pass := (v: int) => Predicate.Eval(p, attrs(v));
            Matching(VidsOf(threads, Predicate.ThreadScopeOf(p).thread, |threads|), pass) ==
                Matching(AllVids(|threads|), pass)
  {
    var pass := (v: int) => Predicate.Eval(p, attrs(v));
    forall v | 0 <= v < |threads| && pass(v) ensures threads[v] == Predicate.ThreadScopeOf(p).thread {
      Predicate.PinIsSound(p, attrs(v));
    }
    PartitionSuffices(threads, Predicate.ThreadScopeOf(p).thread, |threads|, pass);
  }

  // ----- The index -----

  /** `DimMismatch` is the refused panic before anything changes; `Broken` the panic inside the
      graph, after the vector was stored. */
  datatype AddOutcome = Added | Ignored | DimMismatch | Broken

  datatype Candidate = Candidate(key: string, score: real)

  datatype SearchOutcome = Hits(candidates: seq<Candidate>) | Panicked

  predicate HigherFirst(a: Candidate, b: Candidate) {
    a.score >= b.score
  }

  /** The graph measures two vectors by the components whose signs differ, zero counting as positive. */
  lemma DistanceCountsSigns(v: seq<real>, w: seq<real>)
    requires |v| == |w|
    ensures Hamming(Quant.Binarize(v), Quant.Binarize(w)) == |set i | 0 <= i < |v| && ((v[i] >= 0.0) != (w[i] >= 0.0))|
  {
    var a, b := Quant.Binarize(v), Quant.Binarize(w);
    assert (set i | 0 <= i < |a| && i < |b| && a[i] != b[i]) ==
           (set i | 0 <= i < |v| && ((v[i] >= 0.0) != (w[i] >= 0.0)));
  }

  /** The graph holds the vectors `vids` of `vecs`, each under its sign code. */
  ghost predicate Holding(g: Graph, vids: seq<int>, vecs: seq<seq<real>>)
    reads g
  {
    && g.Valid() && g.vids == vids
    && (forall i :: 0 <= i < |g.nodes| ==>
        0 <= g.vids[i] < |vecs| && g.nodes[i].code == Quant.Binarize(vecs[g.vids[i]]))
  }

  /** Each partition holds exactly the vectors `of` assigns to its thread. */
  ghost predicate FiledIn(parts: map<string, Graph>, of: seq<string>, vecs: seq<seq<real>>)
    reads parts.Values
  {
    && (forall t {:trigger PartHeld(parts[t], t, of, vecs)} :: t in parts ==> PartHeld(parts[t], t, of, vecs))
    && (forall v :: 0 <= v < |of| && of[v] != "" ==> of[v] in parts)
  }

  ghost predicate PartHeld(g: Graph, t: string, of: seq<string>, vecs: seq<seq<real>>)
    reads g
  {
    t != "" && Holding(g, VidsOf(of, t, |of|), vecs)
  }

  lemma FiledGrows(parts: map<string, Graph>, of: seq<string>, vecs: seq<seq<real>>, vec: seq<real>)
    requires FiledIn(parts, of, vecs)
    ensures FiledIn(parts, of, vecs + [vec])
  {
    forall t | t in parts ensures PartHeld(parts[t], t, of, vecs + [vec]) {
      assert PartHeld(parts[t], t, of, vecs);
      HoldingGrows(parts[t], VidsOf(of, t, |of|), vecs, vec);
    }
  }

  lemma HoldingGrows(g: Graph, vids: seq<int>, vecs: seq<seq<real>>, vec: seq<real>)
    requires Holding(g, vids, vecs)
    ensures Holding(g, vids, vecs + [vec])
  {
  }

  /** Inserting a stored vector under its sign code. */
  method InsertHeld(g: Graph, ghost vids: seq<int>, ghost vecs: seq<seq<real>>, vid: nat, code: Code, layer: nat)
    requires Holding(g, vids, vecs) && g.Fits(code) && vid < |vecs| && code == Quant.Binarize(vecs[vid])
    modifies g
    ensures Holding(g, vids + [vid], vecs)
  {
    var id := g.Insert(vid, code, layer);
    forall i | 0 <= i < |g.nodes|
      ensures 0 <= g.vids[i] < |vecs| && g.nodes[i].code == Quant.Binarize(vecs[g.vids[i]])
    {
      if i < id { assert g.vids[i] == vids[i]; }
    }
  }

  /** Inserting into one partition files the vector and leaves the others alone. */
  method InsertPart(parts: map<string, Graph>, ghost was: seq<string>, ghost vecs: seq<seq<real>>,
                    thread: string, vid: nat, code: Code, layer: nat)
    requires FiledIn(parts, was, vecs) && vid == |was| < |vecs| && code == Quant.Binarize(vecs[vid])
    requires thread in parts && thread != "" && parts[thread].Fits(code)
    requires forall t :: t in parts && t != thread ==> parts[t] != parts[thread]
    modifies parts[thread]
    ensures FiledIn(parts, was + [thread], vecs)
  {
    assert PartHeld(parts[thread], thread, was, vecs);
    InsertHeld(parts[thread], VidsOf(was, thread, |was|), vecs, vid, code, layer);
    VidsNext(was, thread, thread);
    assert PartHeld(parts[thread], thread, was + [thread], vecs);
    AllFiled(parts, was, thread, vecs);
  }

  lemma AllFiled(parts: map<string, Graph>, was: seq<string>, thread: string, vecs: seq<seq<real>>)
    requires thread in parts && PartHeld(parts[thread], thread, was + [thread], vecs)
    requires forall t {:trigger PartHeld(parts[t], t, was, vecs)} :: t in parts && t != thread ==>
                 PartHeld(parts[t], t, was, vecs)
    requires forall v :: 0 <= v < |was| && was[v] != "" ==> was[v] in parts
    ensures FiledIn(parts, was + [thread], vecs)
  {
    forall t | t in parts ensures PartHeld(parts[t], t, was + [thread], vecs) {
      if t != thread {
        assert PartHeld(parts[t], t, was, vecs);
        OtherPart(parts[t], t, was, thread, vecs);
      }
    }
  }

  class Index {
    const m: int
    const efConstr: int
    const ef: int
    var global: Graph
    var parts: map<string, Graph>
    var keys: seq<string>
    var codes: seq<seq<int>>
    var scales: seq<real>
    var byKey: map<string, nat>
    var dim: nat
    /** The thread and the vector each entry was added with. */
    ghost var threads: seq<string>
    ghost var vecs: seq<seq<real>>

    constructor (m: int, efConstr: int, ef: int)
      ensures Valid() && keys == [] && threads == []
      ensures fresh(global) && parts == map[] && dim == 0
    {
      this.m, this.efConstr := if m == 0 then 16 else m, if efConstr == 0 then 200 else efConstr;
      this.ef := if ef == 0 then 128 else ef;
      global := new Graph(if m == 0 then 16 else m, if efConstr == 0 then 200 else efConstr);
      parts, keys, codes, scales, byKey, dim, threads, vecs := map[], [], [], [], map[], 0, [], [];
    }

    /** Keys, codes and scales are in lockstep, and a key names one vector. */
    ghost predicate Lockstep()
      reads this
    {
      && |keys| == |codes| == |scales| == |threads| == |vecs|
      && (forall k :: k in byKey ==> byKey[k] < |keys| && keys[byKey[k]] == k)
      && (forall v :: 0 <= v < |keys| ==> keys[v] in byKey && byKey[keys[v]] == v)
    }

    /** Each stored vector has the index's dimension and is kept quantized. */
    ghost predicate Quantized()
      reads this
      requires |codes| == |scales| == |vecs|
    {
      forall v {:trigger KeptAs(vecs[v], codes[v], scales[v])} :: 0 <= v < |vecs| ==>
        |vecs[v]| == dim && KeptAs(vecs[v], codes[v], scales[v])
    }

    ghost predicate Store()
      reads this
    {
      Lockstep() && Quantized()
    }

    ghost predicate Separate()
      reads this
    {
      && (forall t :: t in parts ==> parts[t] != global)
      && (forall t, u :: t in parts && u in parts && t != u ==> parts[t] != parts[u])
    }

    /** The global graph holds every vector, each partition exactly its thread's. */
    ghost predicate Valid()
      reads this, global, parts.Values
    {
      && Store() && Separate()
      && Holding(global, AllVids(|keys|), vecs)
      && Filed(threads)
    }

    ghost predicate Filed(of: seq<string>)
      reads this, parts.Values
    {
      FiledIn(parts, of, vecs)
    }

    /** A vector that passes the dimension test although the index holds only empty ones: the
        dimension is still open, but the graph cannot measure the two against each other. */
    predicate Breaks(vec: seq<real>)
      reads this
    {
      dim == 0 && keys != [] && vec != []
    }

    method Add(key: string, thread: string, vec: seq<real>, globalLayer: nat, partLayer: nat) returns (r: AddOutcome)
      requires Valid()
      modifies this, global, parts.Values
      ensures global == old(global) && (!r.Broken? ==> Valid())
      ensures forall t :: t in parts ==> (t in old(parts) && parts[t] == old(parts)[t]) || fresh(parts[t])
      ensures r.Ignored? <==> key in old(byKey)
      ensures r.DimMismatch? <==> key !in old(byKey) && old(dim) != 0 && |vec| != old(dim)
      ensures r.Broken? <==> key !in old(byKey) && old(dim) == 0 && old(keys) != [] && vec != []
      ensures r.Ignored? || r.DimMismatch? ==> unchanged(this) && unchanged(global) && forall t :: t in parts ==>
                  unchanged(parts[t])
      ensures r.Added? || r.Broken? ==>
                keys == old(keys) + [key] && threads == old(threads) + [thread] && vecs == old(vecs) + [vec] &&
                byKey == old(byKey)[key := |old(keys)|]
      // After a panic the store and the global graph hold a vector that nothing links to.
      ensures r.Broken? ==> dim == |vec| && global.vids == old(global.vids) + [|old(keys)|] && parts == old(parts)
    {
      if key in byKey { return Ignored; }
      if dim != 0 && |vec| != dim { return DimMismatch; }
      if Breaks(vec) {
        var vid := |keys|;
        Record(key, thread, vec);
        global.Append(vid, Quant.Binarize(vec), globalLayer);
        return Broken;
      }
      Admit(key, thread, vec, globalLayer, partLayer);
      r := Added;
    }

    method Admit(key: string, thread: string, vec: seq<real>, globalLayer: nat, partLayer: nat)
      requires Valid() && key !in byKey && (keys == [] || |vec| == dim) && (dim == 0 || |vec| == dim)
      modifies this, global, parts.Values
      ensures Valid() && global == old(global)
      ensures forall t :: t in parts ==> (t in old(parts) && parts[t] == old(parts)[t]) || fresh(parts[t])
      ensures keys == old(keys) + [key] && threads == old(threads) + [thread] && vecs == old(vecs) + [vec]
      ensures byKey == old(byKey)[key := |old(keys)|]
    {
      var vid, code := |keys|, Quant.Binarize(vec);
      ghost var before, was := threads, vecs;
      Record(key, thread, vec);
      HoldingGrows(global, AllVids(vid), was, vec);
      FiledGrows(parts, before, was, vec);
      EvenlyWide();
      InsertStored(before, thread, vid, code, globalLayer, partLayer);
    }

    /** Inserts the vector just stored into the global graph and its thread's partition. */
    method InsertStored(ghost was: seq<string>, thread: string, vid: nat, code: Code, globalLayer: nat, partLayer: nat)
      requires Store() && Separate() && Filed(was) && Holding(global, AllVids(vid), vecs) && Ready(vid, code)
      requires threads == was + [thread] && vid == |was|
      modifies this`parts, global, parts.Values
      ensures Valid()
      ensures forall t :: t in parts ==> (t in old(parts) && parts[t] == old(parts)[t]) || fresh(parts[t])
    {
      InsertGlobal(was, vid, code, globalLayer);
      FilePart(was, thread, vid, code, partLayer);
    }

    /** Inserting into the global graph leaves every partition alone. */
    method InsertGlobal(ghost was: seq<string>, vid: nat, code: Code, layer: nat)
      requires Separate() && Filed(was) && Holding(global, AllVids(vid), vecs) && Ready(vid, code)
      modifies global
      ensures Filed(was) && Holding(global, AllVids(vid + 1), vecs)
    {
      WidthsFit(global, AllVids(vid), vid, code);
      InsertHeld(global, AllVids(vid), vecs, vid, code, layer);
    }

    /** Vector `vid` is stored, `code` is its sign code, and all stored vectors are equally wide. */
    ghost predicate Ready(vid: nat, code: Code)
      reads this
    {
      && vid < |vecs| && code == Quant.Binarize(vecs[vid])
      && (forall v :: 0 <= v < |vecs| ==> |vecs[v]| == dim)
    }

    lemma EvenlyWide()
      requires Store()
      ensures forall v :: 0 <= v < |vecs| ==> |vecs[v]| == dim
    {
      forall v | 0 <= v < |vecs| ensures |vecs[v]| == dim { assert KeptAs(vecs[v], codes[v], scales[v]); }
    }

    lemma WidthsFit(g: Graph, vids: seq<int>, vid: nat, code: Code)
      requires Holding(g, vids, vecs) && Ready(vid, code)
      ensures g.Fits(code)
    {
    }

    /** `c` is the scored form of stored vector `v`. */
    ghost predicate Scored(vec: seq<real>, v: int, c: Candidate)
      reads this
    {
      && 0 <= v < |keys| && v < |codes| && v < |scales| && |codes[v]| == |vec|
      && c.key == keys[v] && c.score == Quant.Dot(vec, Quant.AsReals(codes[v])) * scales[v]
    }

    /** A candidate of the searched population: a stored key of that thread, rightly scored. */
    ghost predicate Answer(vec: seq<real>, thread: string, c: Candidate)
      reads this
    {
      c.key in byKey && byKey[c.key] < |threads| && (thread != "" ==> threads[byKey[c.key]] == thread) &&
          Scored(vec, byKey[c.key], c)
    }

    /** Every hit has its candidate, and there are no others. */
    ghost predicate AllAnswered(hits: seq<int>, cands: seq<Candidate>)
      reads this
    {
      |cands| == |hits| && forall i :: 0 <= i < |hits| ==>
              0 <= hits[i] < |keys| && exists c :: c in cands && c.key == keys[hits[i]]
    }

    /** Scores the hits of the graph search. */
    method Rerank(vec: seq<real>, picked: seq<int>) returns (out: seq<Candidate>)
      requires Store() && |vec| == dim && forall i :: 0 <= i < |picked| ==> 0 <= picked[i] < |keys|
      ensures |out| == |picked| && forall i :: 0 <= i < |picked| ==> Scored(vec, picked[i], out[i])
    {
      out := [];
      for i := 0 to |picked|
        invariant |out| == i && forall j :: 0 <= j < i ==> Scored(vec, picked[j], out[j])
      {
        var v := picked[i];
        assert KeptAs(vecs[v], codes[v], scales[v]);
        var score := Quant.AsymmetricInt8Score(vec, codes[v], scales[v]);
        out := out + [Candidate(keys[v], score)];
      }
    }

    /** The graph a search walks, if there is one. */
    ghost predicate Searches(thread: string)
      reads this
    {
      thread == "" || thread in parts
    }

    ghost function Searched(thread: string): Graph
      reads this
      requires Searches(thread)
    {
      if thread == "" then global else parts[thread]
    }

    /** The query cannot be measured: its width is refused, or the searched graph holds empty codes. */
    ghost predicate Unmeasurable(vec: seq<real>, thread: string)
      reads this, global, parts.Values
    {
      |vec| != dim && (dim != 0 || (Searches(thread) && Searched(thread).nodes != []))
    }

    /** The hits of a non-empty graph cannot be cut to a negative count. */
    ghost predicate Uncuttable(n: int, thread: string)
      reads this, global, parts.Values
    {
      n < 0 && Searches(thread) && Searched(thread).nodes != []
    }

    /** Nearest first, at most `n`; no stored key twice; nothing from another thread. */
    method Search(vec: seq<real>, n: int, thread: string) returns (r: SearchOutcome, visited: nat, ghost hits: seq<int>)
      requires Valid()
      ensures r.Panicked? <==> Unmeasurable(vec, thread) || Uncuttable(n, thread)
      ensures r.Hits? && !Searches(thread) ==> r.candidates == []
      ensures r.Hits? ==> r.candidates == [] || |r.candidates| <= n
      ensures r.Hits? ==> forall i, j :: 0 <= i < j < |r.candidates| ==> r.candidates[i].score >= r.candidates[j].score
      ensures r.Hits? ==> SortedBy(HigherFirst, r.candidates) && DistinctKeys(r.candidates)
      ensures r.Hits? ==> forall c :: c in r.candidates ==> Answer(vec, thread, c)
      // They are exactly the hits of a beam search over the graph of the searched population.
      ensures r.Hits? && Searches(thread) ==>
                Beamed(Searched(thread), Quant.Binarize(vec), n, ef, hits) && AllAnswered(hits, r.candidates)
    {
      hits := [];
      if dim != 0 && |vec| != dim { return Panicked, 0, []; }
      if thread != "" && thread !in parts { return Hits([]), 0, []; }
      var g := if thread == "" then global else parts[thread];
      assert thread != "" ==> PartHeld(parts[thread], thread, threads, vecs);
      if |vec| != dim {
        // The dimension is open: every stored code is empty, and measuring the first one panics.
        if g.nodes != [] { return Panicked, 0, []; }
        return Hits([]), 0, [];
      }
      var ok, cands;
      ok, cands, visited, hits := SearchGraph(g, vec, n, thread);
      r := if ok then Hits(cands) else Panicked;
    }

    method SearchGraph(g: Graph, vec: seq<real>, n: int, thread: string)
      returns (ok: bool, cands: seq<Candidate>, visited: nat, ghost hits: seq<int>)
      requires Store() && |vec| == dim
      requires Holding(g, if thread == "" then AllVids(|threads|) else VidsOf(threads, thread, |threads|), vecs)
      ensures ok <==> g.nodes == [] || n >= 0
      ensures ok ==> (cands == [] || |cands| <= n) && SortedBy(HigherFirst, cands) && DistinctKeys(cands)
      ensures ok ==> forall c :: c in cands ==> Answer(vec, thread, c)
      ensures ok ==> Beamed(g, Quant.Binarize(vec), n, ef, hits) && AllAnswered(hits, cands)
    {
      GraphNamesVectors(threads, thread, g.vids);
      forall i | 0 <= i < |g.nodes| ensures |g.nodes[i].code| == |vec| {
        assert KeptAs(vecs[g.vids[i]], codes[g.vids[i]], scales[g.vids[i]]);
      }
      var picked;
      ok, picked, visited := NearbyVids(g, Quant.Binarize(vec), n, ef);
      if !ok { return false, [], visited, []; }
      forall i | 0 <= i < |picked| ensures 0 <= picked[i] < |keys| && (thread != "" ==> threads[picked[i]] == thread) {
        assert picked[i] in picked;
      }
      hits := picked;
      var raw := Rerank(vec, picked);
      cands := Sort(HigherFirst, raw);
      SortedAnswers(vec, thread, picked, raw, cands);
    }

    lemma SortedAnswers(vec: seq<real>, thread: string, picked: seq<int>, raw: seq<Candidate>, cands: seq<Candidate>)
      requires Store() && Distinct(picked) && |raw| == |picked| && cands == Sort(HigherFirst, raw)
      requires forall i :: 0 <= i < |picked| ==>
                   Scored(vec, picked[i], raw[i]) && (thread != "" ==> threads[picked[i]] == thread)
      ensures |cands| == |picked| && SortedBy(HigherFirst, cands) && DistinctKeys(cands) && AllAnswered(picked, cands)
      ensures forall c :: c in cands ==> Answer(vec, thread, c)
    {
      SortSorts(HigherFirst, raw);
      SortMembers(HigherFirst, raw);
      forall c | c in cands ensures Answer(vec, thread, c) {
        assert c in raw;
        var i :| 0 <= i < |raw| && raw[i] == c;
        ScoredIsAnswer(vec, thread, picked[i], c);
      }
      RawKeysAreDistinct(vec, picked, raw);
      KeysStayDistinct(raw, cands);
      forall i | 0 <= i < |picked| ensures exists c :: c in cands && c.key == keys[picked[i]] {
        assert Scored(vec, picked[i], raw[i]) && raw[i] in cands;
      }
    }

    lemma ScoredIsAnswer(vec: seq<real>, thread: string, v: int, c: Candidate)
      requires Store() && Scored(vec, v, c) && (thread != "" ==> threads[v] == thread)
      ensures Answer(vec, thread, c)
    {
      assert byKey[keys[v]] == v;
    }

    lemma RawKeysAreDistinct(vec: seq<real>, picked: seq<int>, raw: seq<Candidate>)
      requires Store() && Distinct(picked) && |raw| == |picked| && forall i :: 0 <= i < |picked| ==>
                   Scored(vec, picked[i], raw[i])
      ensures DistinctKeys(raw)
    {
      forall i, j | 0 <= i < j < |raw| ensures raw[i].key != raw[j].key {
        assert Scored(vec, picked[i], raw[i]) && Scored(vec, picked[j], raw[j]);
        assert byKey[keys[picked[i]]] == picked[i] && byKey[keys[picked[j]]] == picked[j];
      }
    }

    /** Appends to the shared store; it stays uniform unless the vector breaks the index. */
    method Record(key: string, thread: string, vec: seq<real>)
      requires Store() && Separate() && key !in byKey && (dim == 0 || |vec| == dim)
      modifies this`keys, this`codes, this`scales, this`byKey, this`dim, this`threads, this`vecs
      ensures Lockstep() && dim == (if old(dim) == 0 then |vec| else old(dim))
      ensures old(keys) == [] || |vec| == old(dim) ==> Store()
      ensures keys == old(keys) + [key] && threads == old(threads) + [thread] && vecs == old(vecs) + [vec]
      ensures byKey == old(byKey)[key := |old(keys)|]
    {
      var i8, scale := Quant.QuantizeInt8(vec);
      if dim == 0 { dim := |vec|; }
      byKey := byKey[key := |keys|];
      keys, codes, scales := keys + [key], codes + [i8], scales + [scale];
      threads, vecs := threads + [thread], vecs + [vec];
      forall v | 0 <= v < |vecs| - 1 ensures KeptAs(vecs[v], codes[v], scales[v]) && |vecs[v]| == old(dim) {
        assert KeptAs(old(vecs)[v], old(codes)[v], old(scales)[v]);
      }
      assert KeptAs(vec, i8, scale);
    }

    /** Inserts into the thread's partition, creating it on first use; no thread, no partition. */
    method FilePart(ghost was: seq<string>, thread: string, vid: nat, code: Code, layer: nat)
      requires Separate() && Filed(was) && vid == |was| && Ready(vid, code)
      modifies this`parts, parts.Values
      ensures Separate() && Filed(was + [thread])
      ensures forall t :: t in parts ==> (t in old(parts) && parts[t] == old(parts)[t]) || fresh(parts[t])
    {
      if thread == "" {
        forall t | t in parts ensures PartHeld(parts[t], t, was + [thread], vecs) {
          OtherPart(parts[t], t, was, thread, vecs);
        }
        return;
      }
      OpenPart(was, thread);
      assert PartHeld(parts[thread], thread, was, vecs);
      WidthsFit(parts[thread], VidsOf(was, thread, |was|), vid, code);
      InsertPart(parts, was, vecs, thread, vid, code, layer);
    }

    method OpenPart(ghost was: seq<string>, thread: string)
      requires Separate() && Filed(was) && thread != ""
      modifies this`parts
      ensures Separate() && Filed(was) && thread in parts
      ensures forall t :: t in parts ==> (t in old(parts) && parts[t] == old(parts)[t]) || fresh(parts[t])
    {
      if thread !in parts {
        var part := new Graph(m, efConstr);
        NoneYet(was, thread, |was|);
        parts := parts[thread := part];
      }
    }
  }

  /** An index that first meets an empty vector panics on the next one that is not. */
  method EmptyVectorFirst(m: int, efConstr: int, ef: int, thread: string, vec: seq<real>, l: nat, l': nat)
    returns (r: AddOutcome)
    requires vec != []
    ensures r.Broken?
  {
    var index := new Index(m, efConstr, ef);
    var first := index.Add("a", thread, [], l, l);
    assert "a"[0] != "b"[0] && index.vecs == [[]];
    assert KeptAs(index.vecs[0], index.codes[0], index.scales[0]) && index.dim == 0;
    r := index.Add("b", thread, vec, l', l');
  }

  /** The graph's nodes name stored vectors, each once, of the searched thread if one is given. */
  lemma GraphNamesVectors(threads: seq<string>, thread: string, vids: seq<int>)
    requires vids == if thread == "" then AllVids(|threads|) else VidsOf(threads, thread, |threads|)
    ensures Distinct(vids)
    ensures forall i :: 0 <= i < |vids| ==> 0 <= vids[i] < |threads| && (thread != "" ==> threads[vids[i]] == thread)
  {
    if thread == "" {
      AllVidsAre(|threads|);
    } else {
      VidsOfAre(threads, thread, |threads|);
      forall i | 0 <= i < |vids|
        ensures 0 <= vids[i] < |threads| && threads[vids[i]] == thread
      {
        assert vids[i] in vids;
      }
    }
  }

  ghost predicate DistinctKeys(cs: seq<Candidate>) {
    forall i, j :: 0 <= i < j < |cs| ==> cs[i].key != cs[j].key
  }

  lemma KeysStayDistinct(raw: seq<Candidate>, cands: seq<Candidate>)
    requires DistinctKeys(raw) && multiset(cands) == multiset(raw)
    ensures DistinctKeys(cands)
  {
    DistinctIsOnce(raw);
    DistinctIsOnce(cands);
    forall c ensures c in cands <==> c in raw {
      assert c in cands <==> c in multiset(cands);
      assert c in raw <==> c in multiset(raw);
    }
    forall i, j | 0 <= i < j < |cands| ensures cands[i].key != cands[j].key {
      assert cands[i] in raw && cands[j] in raw && cands[i] != cands[j];
      var a :| 0 <= a < |raw| && raw[a] == cands[i];
      var b :| 0 <= b < |raw| && raw[b] == cands[j];
    }
  }

  lemma HitsAreNodes(g: Graph, code: Code, ef: int, ep: nat, all: seq<DistNode>, seen: set<nat>, res: seq<DistNode>)
    requires g.Valid() && res <= all && (g.nodes == [] ==> res == [])
    requires g.nodes != [] ==> BeamPromise(g.nodes, code, 0, ef, ep, all, seen)
    ensures DistinctNodes(res) && forall i :: 0 <= i < |res| ==> res[i].id < |g.vids|
  {
    forall i | 0 <= i < |res| ensures res[i].id < |g.vids| { assert res[i] == all[i] && all[i] in all; }
  }

  /** `picked` are the vectors of the first `n` nodes of `all`. */
  ghost predicate HeadOf(vids: seq<int>, all: seq<DistNode>, n: nat, picked: seq<int>) {
    && |picked| == (if |all| > n then n else |all|)
    && forall i :: 0 <= i < |picked| ==> all[i].id < |vids| && picked[i] == vids[all[i].id]
  }

  /** `picked` are the first `n` hits of a base-layer beam search; none in an empty graph. */
  ghost predicate Beamed(g: Graph, code: Code, n: int, ef: int, picked: seq<int>)
    reads g
  {
    if g.nodes == [] then picked == []
    else exists ep, all, seen :: BeamedBy(g, code, n, ef, picked, ep, all, seen)
  }

  ghost predicate BeamedBy(g: Graph, code: Code, n: int, ef: int, picked: seq<int>, ep: nat, all: seq<DistNode>,
                           seen: set<nat>)
    reads g
  {
    n >= 0 && BeamPromise(g.nodes, code, 0, if ef < n then n else ef, ep, all, seen) && HeadOf(g.vids, all, n, picked)
  }

  /** The vectors a graph search hits, nearest code first. */
  method NearbyVids(g: Graph, code: Code, n: int, ef: int) returns (ok: bool, picked: seq<int>, visited: nat)
    requires g.Valid() && g.Fits(code) && Distinct(g.vids)
    ensures ok <==> g.nodes == [] || n >= 0
    ensures ok ==> (picked == [] || |picked| <= n) && Distinct(picked) && forall v :: v in picked ==> v in g.vids
    ensures ok ==> Beamed(g, code, n, ef, picked)
  {
    var found, res, evaluated, ep, all, seen := g.Search(code, n, ef);
    ok, picked, visited := found, [], evaluated;
    if !found || g.nodes == [] { return; }
    HitsAreNodes(g, code, if ef < n then n else ef, ep, all, seen, res);
    for i := 0 to |res|
      invariant |picked| == i && forall j :: 0 <= j < i ==> picked[j] == g.vids[res[j].id]
    {
      picked := picked + [g.vids[res[i].id]];
    }
    ChosenAreDistinct(g.vids, res, picked);
    assert BeamedBy(g, code, n, ef, picked, ep, all, seen);
  }

  lemma ChosenAreDistinct(vids: seq<int>, res: seq<DistNode>, picked: seq<int>)
    requires Distinct(vids) && DistinctNodes(res) && |picked| == |res|
    requires forall i :: 0 <= i < |res| ==> res[i].id < |vids| && picked[i] == vids[res[i].id]
    ensures Distinct(picked)
  {
    forall i, j | 0 <= i < j < |picked| ensures picked[i] != picked[j] {
      var a, b := res[i].id, res[j].id;
      assert a != b && (a < b ==> vids[a] != vids[b]) && (b < a ==> vids[b] != vids[a]);
    }
  }

  /** `code` and `scale` are the quantized form of `vec`. */
  ghost predicate KeptAs(vec: seq<real>, code: seq<int>, scale: real) {
    |code| == |vec| && forall i :: 0 <= i < |vec| ==> Quant.CodedWell(vec[i], code[i], scale)
  }

  /** One more vector joins its own thread's list and no other. */
  lemma VidsNext(was: seq<string>, thread: string, t: string)
    ensures VidsOf(was + [thread], t, |was| + 1) ==
            if t == thread then VidsOf(was, t, |was|) + [|was|] else VidsOf(was, t, |was|)
  {
    VidsOfGrows(was, thread, t, |was|);
  }

  lemma OtherPart(g: Graph, t: string, was: seq<string>, thread: string, vecs: seq<seq<real>>)
    requires PartHeld(g, t, was, vecs) && t != thread
    ensures PartHeld(g, t, was + [thread], vecs)
  {
    VidsNext(was, thread, t);
  }

  lemma {:induction false} NoneYet(threads: seq<string>, thread: string, n: nat)
    requires n <= |threads| && forall v :: 0 <= v < n ==> threads[v] != thread
    ensures VidsOf(threads, thread, n) == []
  {
    if n > 0 { NoneYet(threads, thread, n - 1); }
  }

  /** In a valid index, a query pinned to a thread loses nothing by walking that thread's graph,
      or no graph when the thread has none, instead of the global one. */
  lemma RoutedGraphSuffices(ix: Index, attrs: int -> Predicate.Attrs, p: Predicate.Predicate)
    requires ix.Valid() && Predicate.ThreadScopeOf(p).Pinned? && Predicate.ThreadScopeOf(p).thread != ""
    requires forall v :: 0 <= v < |ix.threads| ==> attrs(v).threadID == ix.threads[v]
    ensures var t, pass := Predicate.ThreadScopeOf(p).thread, (v: int) => Predicate.Eval(p, attrs(v));
            Matching(if t in ix.parts then ix.parts[t].vids else [], pass) == Matching(ix.global.vids, pass)
  {
    var t := Predicate.ThreadScopeOf(p).thread;
    RoutingIsExact(ix.threads, attrs, p);
    assert t in ix.parts ==> PartHeld(ix.parts[t], t, ix.threads, ix.vecs);
    if t !in ix.parts { NoneYet(ix.threads, t, |ix.threads|); }
  }
}
