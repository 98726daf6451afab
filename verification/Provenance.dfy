/** What a provenance walk is about: the contributor graph one walk sees, trails into the
    anchor set, and the strength of a trail (rrc/provenance.go). */
module Provenance {
  import opened Dag

  /** One incoming provenance relation: a contributor and the weight it was banked with. */
  datatype Contribution = Contribution(from: string, weight: real)

  /** Target id to its contributors. */
  type Graph = map<string, seq<Contribution>>

  predicate Walkable(e: Edge, cone: string, scope: Scope) {
    e.source == EdgeSource.Provenance && ScopeAllows(e, cone, scope)
  }

  /** The in-scope provenance edges of an adjacency list, as contributions. */
  function Contributions(es: seq<Edge>, cone: string, scope: Scope): seq<Contribution> {
    if es == [] then []
    else
      var e := es[|es| - 1];
      Contributions(es[..|es| - 1], cone, scope) +
      (if Walkable(e, cone, scope) then [Contribution(e.from, e.score)] else [])
  }

  /** The graph a walk over `backward` sees under one cone thread and scope. */
  ghost function View(backward: map<string, seq<Edge>>, cone: string, scope: Scope): Graph {
    map id | id in backward :: Contributions(backward[id], cone, scope)
  }

  ghost function In(g: Graph, id: string): seq<Contribution> {
    if id in g then g[id] else []
  }

  function Clamp01(w: real): (c: real)
    ensures 0.0 <= c <= 1.0
    ensures 0.0 <= w <= 1.0 ==> c == w
  {
    if w < 0.0 then 0.0 else if w > 1.0 then 1.0 else w
  }

  /** The k-th contribution into `to`: one recorded edge, told apart from its parallels. */
  datatype Step = Step(to: string, k: nat)

  ghost predicate Exists(g: Graph, s: Step) {
    s.k < |In(g, s.to)|
  }

  ghost function Taken(g: Graph, s: Step): Contribution
    requires Exists(g, s)
  {
    In(g, s.to)[s.k]
  }

  /** `p` leads from `v` along recorded contributions to some anchor. */
  ghost predicate Trail(g: Graph, anchors: set<string>, v: string, p: seq<Step>)
    decreases p
  {
    && p != []
    && Exists(g, p[0])
    && Taken(g, p[0]).from == v
    && (if |p| == 1 then p[0].to in anchors else Trail(g, anchors, p[0].to, p[1..]))
  }

  /** A bound carried across one edge, its weight clamped to [0, 1]. */
  function Through(bound: real, weight: real): (r: real)
    ensures 0.0 <= bound ==> 0.0 <= r <= bound
  {
    var c := Clamp01(weight);
    assert 0.0 <= bound ==> bound * (1.0 - c) >= 0.0;
    bound * c
  }

  lemma ThroughMonotone(a: real, b: real, weight: real)
    requires a <= b
    ensures Through(a, weight) <= Through(b, weight)
  {
    assert (b - a) * Clamp01(weight) >= 0.0;
  }

  /** Product of the clamped weights along a trail. */
  ghost function Strength(g: Graph, p: seq<Step>): (r: real)
    ensures 0.0 <= r <= 1.0
  {
    if p == [] then 1.0
    else if Exists(g, p[0]) then Through(Strength(g, p[1..]), Taken(g, p[0]).weight)
    else 0.0
  }

  /** `v` feeds the anchor set through recorded provenance without being part of it. */
  ghost predicate Reachable(g: Graph, anchors: set<string>, v: string) {
    v !in anchors && exists p :: Trail(g, anchors, v, p)
  }

  /** `b` is the strongest single trail from `v` into the anchors. */
  ghost predicate Strongest(g: Graph, anchors: set<string>, v: string, b: real) {
    && (exists p :: Trail(g, anchors, v, p) && Strength(g, p) == b)
    && (forall p :: Trail(g, anchors, v, p) ==> Strength(g, p) <= b)
  }

  /** Loop form of the contributor lookup. */
  method ContributorsOf(es: seq<Edge>, cone: string, scope: Scope) returns (out: seq<Contribution>)
    ensures out == Contributions(es, cone, scope)
  {
    out := [];
    for i := 0 to |es|
      invariant out == Contributions(es[..i], cone, scope)
    {
      assert es[..i + 1][..i] == es[..i];
      if Walkable(es[i], cone, scope) {
        out := out + [Contribution(es[i].from, es[i].score)];
      }
    }
    assert es[..|es|] == es;
  }

  lemma {:induction false} ContributionIsEdge(es: seq<Edge>, cone: string, scope: Scope, c: Contribution)
    returns (e: Edge)
    requires c in Contributions(es, cone, scope)
    ensures e in es && Walkable(e, cone, scope) && e.from == c.from && e.score == c.weight
  {
    var last, front := es[|es| - 1], es[..|es| - 1];
    assert es == front + [last];
    if c in Contributions(front, cone, scope) {
      e := ContributionIsEdge(front, cone, scope, c);
    } else {
      e := last;
    }
  }

  // ----- Threads -----

  /** `e` is an in-scope provenance edge from the message `x` of thread `t`. */
  ghost predicate Tells(e: Edge, cone: string, scope: Scope, x: string, t: string) {
    && e.from == x && e.fromThread == t && e.source == EdgeSource.Provenance
    && (scope == AllThreads || (e.fromThread == cone && e.toThread == cone))
  }

  /** Some in-scope provenance edge into one of `ids` says that `x` is a message of thread `t`. */
  ghost predicate Names(backward: map<string, seq<Edge>>, cone: string, scope: Scope, ids: seq<string>,
                        x: string, t: string) {
    exists u, e :: u in ids && e in Lookup(backward, u) && Tells(e, cone, scope, x, t)
  }

  /** `threads` holds exactly the contributors of `ids`, each with a thread some edge gives it. */
  ghost predicate KnownThreads(backward: map<string, seq<Edge>>, cone: string, scope: Scope, ids: seq<string>,
                               threads: map<string, string>) {
    && (forall x :: x in threads ==> Names(backward, cone, scope, ids, x, threads[x]))
    && (forall x, t :: Names(backward, cone, scope, ids, x, t) ==> x in threads)
  }

  /** Notes the thread of every contributor of `ids`; a later edge overrides an earlier one. */
  method ThreadsOf(backward: map<string, seq<Edge>>, cone: string, scope: Scope, ids: seq<string>)
    returns (threads: map<string, string>)
    ensures KnownThreads(backward, cone, scope, ids, threads)
  {
    threads := map[];
    for i := 0 to |ids|
      invariant KnownThreads(backward, cone, scope, ids[..i], threads)
    {
      var noted := Noted(Lookup(backward, ids[i]), cone, scope);
      NotedExtends(backward, cone, scope, ids[..i], ids[i], threads, noted);
      threads := threads + noted;
      assert ids[..i + 1] == ids[..i] + [ids[i]];
    }
    assert ids[..|ids|] == ids;
  }

  /** `threads` holds exactly the contributors in `es`, each with a thread some edge gives it. */
  ghost predicate NotedFrom(es: seq<Edge>, cone: string, scope: Scope, threads: map<string, string>) {
    && (forall x :: x in threads ==> exists e :: e in es && Tells(e, cone, scope, x, threads[x]))
    && (forall e, x, t :: e in es && Tells(e, cone, scope, x, t) ==> x in threads)
  }

  /** The threads one adjacency list gives its contributors. */
  method Noted(es: seq<Edge>, cone: string, scope: Scope) returns (threads: map<string, string>)
    ensures NotedFrom(es, cone, scope, threads)
  {
    threads := map[];
    for i := 0 to |es|
      invariant NotedFrom(es[..i], cone, scope, threads)
    {
      NotedMore(es[..i], es[i], cone, scope, threads);
      assert es[..i + 1] == es[..i] + [es[i]];
      if Walkable(es[i], cone, scope) {
        threads := threads[es[i].from := es[i].fromThread];
      }
    }
    assert es[..|es|] == es;
  }

  lemma NotedMore(es: seq<Edge>, e: Edge, cone: string, scope: Scope, threads: map<string, string>)
    requires NotedFrom(es, cone, scope, threads)
    ensures Walkable(e, cone, scope) ==> NotedFrom(es + [e], cone, scope, threads[e.from := e.fromThread])
    ensures !Walkable(e, cone, scope) ==> NotedFrom(es + [e], cone, scope, threads)
  {
    var more := es + [e];
    assert e in more && forall f :: f in more <==> f in es || f == e;
    forall x | x in threads ensures exists f :: f in more && Tells(f, cone, scope, x, threads[x]) {
      var f :| f in es && Tells(f, cone, scope, x, threads[x]);
    }
    assert Walkable(e, cone, scope) ==> Tells(e, cone, scope, e.from, e.fromThread);
  }

  lemma NotedExtends(backward: map<string, seq<Edge>>, cone: string, scope: Scope, ids: seq<string>, id: string,
                     threads: map<string, string>, noted: map<string, string>)
    requires KnownThreads(backward, cone, scope, ids, threads)
    requires NotedFrom(Lookup(backward, id), cone, scope, noted)
    ensures KnownThreads(backward, cone, scope, ids + [id], threads + noted)
  {
    var more := ids + [id];
    forall x | x in threads + noted ensures Names(backward, cone, scope, more, x, (threads + noted)[x]) {
      if x in noted {
        var e :| e in Lookup(backward, id) && Tells(e, cone, scope, x, noted[x]);
        assert id in more;
      } else {
        NamesMore(backward, cone, scope, ids, id, x, threads[x]);
      }
    }
    forall x, t | Names(backward, cone, scope, more, x, t) ensures x in threads + noted {
      var u, e :| u in more && e in Lookup(backward, u) && Tells(e, cone, scope, x, t);
      assert u != id ==> Names(backward, cone, scope, ids, x, t);
    }
  }

  lemma NamesMore(backward: map<string, seq<Edge>>, cone: string, scope: Scope, ids: seq<string>, id: string,
                  x: string, t: string)
    requires Names(backward, cone, scope, ids, x, t)
    ensures Names(backward, cone, scope, ids + [id], x, t)
  {
    var u, e :| u in ids && e in Lookup(backward, u) && Tells(e, cone, scope, x, t);
    assert u in ids + [id];
  }
}
