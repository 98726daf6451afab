/** Beam search and greedy descent over one layer of a navigable small-world graph
    (service/annindex/hnsw.go). */
module Hnsw {
  import opened Sorting

  type Code = seq<bool>

  /** Number of positions at which two codes differ. */
  function Hamming(a: Code, b: Code): nat {
    |set i | 0 <= i < |a| && i < |b| && a[i] != b[i]|
  }

  lemma NothingDiffers(a: Code)
    ensures Hamming(a, a) == 0
  {
    assert (set i | 0 <= i < |a| && i < |a| && a[i] != a[i]) == {};
  }

  /** The distance starts at nothing and grows by one with each position that differs. */
  lemma HammingCounts(a: Code, b: Code, x: bool, y: bool)
    requires |a| == |b|
    ensures Hamming([], []) == 0
    ensures Hamming(a + [x], b + [y]) == Hamming(a, b) + (if x != y then 1 else 0)
  {
    var before := set i | 0 <= i < |a| && i < |b| && a[i] != b[i];
    var c, d, n := a + [x], b + [y], |a|;
    var now := set i | 0 <= i < |c| && i < |d| && c[i] != d[i];
    assert forall i :: 0 <= i < n ==> c[i] == a[i] && d[i] == b[i];
    assert now == if x != y then before + {n} else before;
    NothingDiffers([]);
  }

  /** `conns[l]` are the neighbours on layer `l`; there is one list per layer the node owns. */
  datatype Node = Node(code: Code, conns: seq<seq<nat>>)

  datatype DistNode = DistNode(id: nat, dist: nat)

  predicate Owns(nodes: seq<Node>, layer: nat, id: nat) {
    id < |nodes| && layer < |nodes[id].conns|
  }

  function Links(nodes: seq<Node>, layer: nat, id: nat): seq<nat>
    requires Owns(nodes, layer, id)
  {
    nodes[id].conns[layer]
  }

  function Dist(nodes: seq<Node>, code: Code, id: nat): nat
    requires id < |nodes|
  {
    Hamming(code, nodes[id].code)
  }

  /** Following links on the layer never leaves the nodes that own it. */
  ghost predicate Navigable(nodes: seq<Node>, layer: nat) {
    forall i: nat, nb {:trigger nb in Links(nodes, layer, i)} ::
      Owns(nodes, layer, i) && nb in Links(nodes, layer, i) ==> Owns(nodes, layer, nb)
  }

  // ----- Sets of nodes on one layer -----

  ghost predicate LinksInto(nodes: seq<Node>, layer: nat, s: set<nat>, id: nat) {
    Owns(nodes, layer, id) && forall nb :: nb in Links(nodes, layer, id) ==> nb in s
  }

  /** `s` holds every neighbour of its members. */
  ghost predicate ClosedOn(nodes: seq<Node>, layer: nat, s: set<nat>) {
    forall id {:trigger LinksInto(nodes, layer, s, id)} :: id in s ==> LinksInto(nodes, layer, s, id)
  }

  ghost predicate Has(xs: seq<DistNode>, id: nat) {
    exists i :: 0 <= i < |xs| && xs[i].id == id
  }

  ghost predicate DistinctNodes(xs: seq<DistNode>) {
    forall i, j :: 0 <= i < j < |xs| ==> xs[i].id != xs[j].id
  }

  ghost predicate Ascending(xs: seq<DistNode>) {
    forall i, j :: 0 <= i < j < |xs| ==> xs[i].dist <= xs[j].dist
  }

  /** Each entry was evaluated and carries its distance. */
  ghost predicate Measured(nodes: seq<Node>, code: Code, seen: set<nat>, xs: seq<DistNode>) {
    forall x :: x in xs ==> x.id in seen && x.id < |nodes| && x.dist == Dist(nodes, code, x.id)
  }

  /** Everything evaluated owns the layer and lies in every closed set around the entry point. */
  ghost predicate Explored(nodes: seq<Node>, layer: nat, ep: nat, seen: set<nat>) {
    && ep in seen
    && (forall id :: id in seen ==> Owns(nodes, layer, id))
    && (forall s: set<nat> {:trigger ClosedOn(nodes, layer, s)} :: ClosedOn(nodes, layer, s) && ep in s ==> seen <= s)
  }

  /** `x` is among the results, or the results are full of nodes at least as near. */
  ghost predicate Placed(nodes: seq<Node>, code: Code, cap: nat, res: seq<DistNode>, x: nat) {
    Has(res, x) || (x < |nodes| && |res| == cap && forall r :: r in res ==> r.dist <= Dist(nodes, code, x))
  }

  /** The results are the `cap` nearest of everything evaluated. */
  ghost predicate Nearest(nodes: seq<Node>, code: Code, cap: nat, seen: set<nat>, res: seq<DistNode>) {
    && 1 <= |res| <= cap && DistinctNodes(res)
    && Measured(nodes, code, seen, res)
    && (forall x {:trigger Placed(nodes, code, cap, res, x)} :: x in seen ==> Placed(nodes, code, cap, res, x))
  }

  /** Each result still waits on the frontier or has all its neighbours evaluated. */
  ghost predicate Frontier(nodes: seq<Node>, layer: nat, seen: set<nat>, cand: seq<DistNode>, res: seq<DistNode>) {
    forall r {:trigger LinksInto(nodes, layer, seen, r.id)} :: r in res ==>
            r in cand || LinksInto(nodes, layer, seen, r.id)
  }

  // ----- The heaps -----

  method PopNearest(cand: seq<DistNode>) returns (top: DistNode, rest: seq<DistNode>)
    requires cand != []
    ensures top in cand && forall x :: x in cand ==> top.dist <= x.dist
    ensures multiset(cand) == multiset(rest) + multiset{top} && |rest| == |cand| - 1
    ensures forall x :: x in cand <==> x == top || x in rest
  {
    var at := 0;
    for i := 1 to |cand|
      invariant 0 <= at < i
      invariant forall j :: 0 <= j < i ==> cand[at].dist <= cand[j].dist
    {
      if cand[i].dist < cand[at].dist { at := i; }
    }
    top, rest := cand[at], cand[..at] + cand[at + 1..];
    Removed(cand, at);
  }

  /** The farthest result, found where the heap keeps its root. */
  method Farthest(res: seq<DistNode>) returns (at: nat)
    requires res != []
    ensures at < |res| && forall x :: x in res ==> x.dist <= res[at].dist
  {
    at := 0;
    for i := 1 to |res|
      invariant 0 <= at < i
      invariant forall j :: 0 <= j < i ==> res[j].dist <= res[at].dist
    {
      if res[i].dist > res[at].dist { at := i; }
    }
  }

  function Without(xs: seq<DistNode>, at: nat): seq<DistNode>
    requires at < |xs|
  {
    xs[..at] + xs[at + 1..]
  }

  lemma Removed(xs: seq<DistNode>, at: nat)
    requires at < |xs|
    ensures multiset(xs) == multiset(Without(xs, at)) + multiset{xs[at]}
    ensures forall x :: x in xs <==> x == xs[at] || x in Without(xs, at)
  {
    assert xs == xs[..at] + [xs[at]] + xs[at + 1..];
    forall x ensures x in xs <==> x == xs[at] || x in Without(xs, at) {
      assert x in xs <==> x in multiset(xs);
      assert x in Without(xs, at) <==> x in multiset(Without(xs, at));
    }
  }

  // ----- One evaluation -----

  lemma WithoutKeepsDistinct(xs: seq<DistNode>, at: nat)
    requires at < |xs| && DistinctNodes(xs)
    ensures DistinctNodes(Without(xs, at))
    ensures forall id :: Has(xs, id) ==> id == xs[at].id || Has(Without(xs, at), id)
  {
    var ys := Without(xs, at);
    forall id | Has(xs, id) && id != xs[at].id ensures Has(ys, id) {
      var i :| 0 <= i < |xs| && xs[i].id == id;
      assert ys[if i < at then i else i - 1].id == id;
    }
  }

  /** A new node joins results that are not full. */
  lemma JoinNearest(nodes: seq<Node>, code: Code, cap: nat, seen: set<nat>, res: seq<DistNode>, nb: nat)
    requires Nearest(nodes, code, cap, seen, res) && |res| < cap && nb < |nodes| && nb !in seen
    ensures Nearest(nodes, code, cap, seen + {nb}, res + [DistNode(nb, Dist(nodes, code, nb))])
  {
    var res' := res + [DistNode(nb, Dist(nodes, code, nb))];
    forall i | 0 <= i < |res| ensures res[i].id != nb { assert res[i] in res; }
    forall x | x in seen + {nb} ensures Placed(nodes, code, cap, res', x) {
      if x == nb {
        assert res'[|res|].id == nb;
      } else {
        assert Placed(nodes, code, cap, res, x);
        var i :| 0 <= i < |res| && res[i].id == x;
        assert res'[i].id == x;
      }
    }
  }

  /** A nearer node takes the place of the farthest result. */
  lemma ReplaceNearest(nodes: seq<Node>, code: Code, cap: nat, seen: set<nat>, res: seq<DistNode>, nb: nat, at: nat)
    requires Nearest(nodes, code, cap, seen, res) && |res| == cap && nb < |nodes| && nb !in seen
    requires var more := res + [DistNode(nb, Dist(nodes, code, nb))];
             at < |more| && forall x :: x in more ==> x.dist <= more[at].dist
    ensures Nearest(nodes, code, cap, seen + {nb}, Without(res + [DistNode(nb, Dist(nodes, code, nb))], at))
  {
    var more := res + [DistNode(nb, Dist(nodes, code, nb))];
    var res' := Without(more, at);
    forall i | 0 <= i < |res| ensures res[i].id != nb { assert res[i] in res; }
    WithoutKeepsDistinct(more, at);
    Removed(more, at);
    forall x | x in seen + {nb} ensures Placed(nodes, code, cap, res', x) {
      if Has(res', x) {
      } else if Has(more, x) {
        assert x == more[at].id;
      } else {
        OutsideStaysOutside(nodes, code, cap, res, nb, at, x, seen);
      }
    }
  }

  lemma OutsideStaysOutside(nodes: seq<Node>, code: Code, cap: nat, res: seq<DistNode>, nb: nat, at: nat, x: nat,
                            seen: set<nat>)
    requires Nearest(nodes, code, cap, seen, res) && |res| == cap && nb < |nodes| && x in seen + {nb}
    requires var more := res + [DistNode(nb, Dist(nodes, code, nb))];
             && at < |more| && !Has(more, x)
             && forall y :: y in more ==> y.dist <= more[at].dist
    ensures x < |nodes| && forall r :: r in Without(res + [DistNode(nb, Dist(nodes, code, nb))], at) ==>
                r.dist <= Dist(nodes, code, x)
  {
    var more := res + [DistNode(nb, Dist(nodes, code, nb))];
    assert more[|res|].id == nb;
    assert x in seen && Placed(nodes, code, cap, res, x);
    assert !Has(res, x) by {
      forall i | 0 <= i < |res| ensures res[i].id != x { assert more[i].id != x; }
    }
    Removed(more, at);
    if at == |res| {
      assert Without(more, at) == res;
    } else {
      assert more[at] in res;
    }
  }

  /** A node no nearer than the farthest of full results is passed over. */
  lemma SkipNearest(nodes: seq<Node>, code: Code, cap: nat, seen: set<nat>, res: seq<DistNode>, nb: nat)
    requires Nearest(nodes, code, cap, seen, res) && |res| == cap && nb < |nodes|
    requires forall r :: r in res ==> r.dist <= Dist(nodes, code, nb)
    ensures Nearest(nodes, code, cap, seen + {nb}, res)
  {
    forall x | x in seen + {nb} ensures Placed(nodes, code, cap, res, x) {
      assert x != nb ==> Placed(nodes, code, cap, res, x);
    }
  }

  // ----- Beam search -----

  /** The state of a beam search. */
  datatype Beam = Beam(seen: set<nat>, cand: seq<DistNode>, res: seq<DistNode>, visited: nat)

  /** What each step keeps, whatever is still on the frontier. */
  ghost predicate Searching(nodes: seq<Node>, code: Code, layer: nat, cap: nat, ep: nat, b: Beam) {
    && Explored(nodes, layer, ep, b.seen)
    && Nearest(nodes, code, cap, b.seen, b.res)
    && Measured(nodes, code, b.seen, b.cand)
    && b.visited == |b.seen|
  }

  /** The frontier condition while `c`, already popped, is being expanded. */
  ghost predicate FrontierBut(nodes: seq<Node>, layer: nat, b: Beam, c: nat) {
    forall r {:trigger LinksInto(nodes, layer, b.seen, r.id)} ::
      r in b.res ==> r in b.cand || r.id == c || LinksInto(nodes, layer, b.seen, r.id)
  }

  lemma ExploreMore(nodes: seq<Node>, layer: nat, ep: nat, seen: set<nat>, c: nat, nb: nat)
    requires Explored(nodes, layer, ep, seen) && c in seen && Navigable(nodes, layer) && nb in Links(nodes, layer, c)
    ensures Explored(nodes, layer, ep, seen + {nb})
  {
    forall s: set<nat> | ClosedOn(nodes, layer, s) && ep in s ensures seen + {nb} <= s {
      assert LinksInto(nodes, layer, s, c);
    }
  }

  lemma FrontierGrows(nodes: seq<Node>, layer: nat, b: Beam, b': Beam, c: nat)
    requires FrontierBut(nodes, layer, b, c) && b.seen <= b'.seen
    requires forall x :: x in b.cand ==> x in b'.cand
    requires forall r :: r in b'.res ==> r in b.res || r in b'.cand
    ensures FrontierBut(nodes, layer, b', c)
  {
    forall r | r in b'.res && r !in b'.cand && r.id != c ensures LinksInto(nodes, layer, b'.seen, r.id) {
      assert LinksInto(nodes, layer, b.seen, r.id);
    }
  }

  /** Measures one neighbour of `c` met for the first time. */
  method Measure(nodes: seq<Node>, code: Code, layer: nat, ef: int, ghost ep: nat, ghost c: nat, nb: nat, b: Beam)
    returns (b': Beam)
    requires Navigable(nodes, layer) && Searching(nodes, code, layer, Cap(ef), ep, b) && FrontierBut(nodes, layer, b, c)
    requires c in b.seen && nb in Links(nodes, layer, c) && nb !in b.seen
    ensures Searching(nodes, code, layer, Cap(ef), ep, b') && FrontierBut(nodes, layer, b', c)
    ensures b'.seen == b.seen + {nb}
  {
    var x := DistNode(nb, Dist(nodes, code, nb));
    var cand, res := b.cand, b.res;
    ExploreMore(nodes, layer, ep, b.seen, c, nb);
    var worst := Farthest(res);
    if |res| < ef || x.dist < res[worst].dist {
      cand, res := cand + [x], res + [x];
      if |res| > ef {
        worst := Farthest(res);
        ReplaceNearest(nodes, code, Cap(ef), b.seen, b.res, nb, worst);
        Removed(res, worst);
        res := Without(res, worst);
      } else {
        JoinNearest(nodes, code, Cap(ef), b.seen, b.res, nb);
      }
    } else {
      SkipNearest(nodes, code, Cap(ef), b.seen, b.res, nb);
    }
    b' := Beam(b.seen + {nb}, cand, res, b.visited + 1);
    FrontierGrows(nodes, layer, b, b', c);
  }

  /** A beam narrower than one still holds one result. */
  function Cap(ef: int): nat {
    if ef < 1 then 1 else ef
  }

  /** Evaluates every neighbour of the popped `c`. */
  method ExpandNode(nodes: seq<Node>, code: Code, layer: nat, ef: int, ghost ep: nat, c: nat, b0: Beam)
    returns (b: Beam)
    requires Navigable(nodes, layer) && Searching(nodes, code, layer, Cap(ef), ep, b0) &&
             FrontierBut(nodes, layer, b0, c)
    requires c in b0.seen
    ensures Searching(nodes, code, layer, Cap(ef), ep, b) && Frontier(nodes, layer, b.seen, b.cand, b.res)
    ensures b0.seen <= b.seen && (b.seen == b0.seen ==> b == b0)
  {
    b := b0;
    var links := Links(nodes, layer, c);
    for j := 0 to |links|
      invariant Searching(nodes, code, layer, Cap(ef), ep, b) && FrontierBut(nodes, layer, b, c)
      invariant b0.seen <= b.seen && (b.seen == b0.seen ==> b == b0)
      invariant forall i :: 0 <= i < j ==> links[i] in b.seen
    {
      if links[j] !in b.seen {
        b := Measure(nodes, code, layer, ef, ep, c, links[j], b);
      }
    }
    assert LinksInto(nodes, layer, b.seen, c);
  }

  /** What a beam search returns. */
  ghost predicate BeamPromise(nodes: seq<Node>, code: Code, layer: nat, ef: int, ep: nat, out: seq<DistNode>,
                              seen: set<nat>) {
    && Explored(nodes, layer, ep, seen)
    // The nearest of everything evaluated, nearest first.
    && Nearest(nodes, code, Cap(ef), seen, out) && Ascending(out)
    // Every neighbour of a returned node was evaluated.
    && (forall r {:trigger LinksInto(nodes, layer, seen, r.id)} :: r in out ==> LinksInto(nodes, layer, seen, r.id))
  }

  lemma StartSearching(nodes: seq<Node>, code: Code, layer: nat, cap: nat, ep: nat)
    requires Owns(nodes, layer, ep) && cap >= 1
    ensures var x := DistNode(ep, Dist(nodes, code, ep)); Searching(nodes, code, layer, cap, ep,
                                                                    Beam({ep}, [x], [x], 1))
  {
    var x := DistNode(ep, Dist(nodes, code, ep));
    assert [x][0].id == ep;
  }

  /** With the nearest candidate beyond full results, every result has been expanded. */
  lemma StoppedIsDone(nodes: seq<Node>, layer: nat, b: Beam, top: DistNode, worst: nat)
    requires Frontier(nodes, layer, b.seen, b.cand, b.res) && worst < |b.res|
    requires forall x :: x in b.cand ==> top.dist <= x.dist
    requires forall r :: r in b.res ==> r.dist <= b.res[worst].dist
    requires top.dist > b.res[worst].dist
    ensures Frontier(nodes, layer, b.seen, [], b.res)
  {
  }

  ghost function Owners(nodes: seq<Node>, layer: nat): set<nat> {
    set i: nat | i < |nodes| && Owns(nodes, layer, i)
  }

  method SearchLayer(nodes: seq<Node>, code: Code, ep: nat, ef: int, layer: nat)
    returns (out: seq<DistNode>, visited: nat, ghost seen: set<nat>)
    requires Navigable(nodes, layer) && Owns(nodes, layer, ep)
    ensures DistinctNodes(out) && Ascending(out) && 1 <= |out| <= Cap(ef)
    ensures BeamPromise(nodes, code, layer, ef, ep, out, seen)
    ensures visited == |seen|
  {
    var x := DistNode(ep, Dist(nodes, code, ep));
    var b := Beam({ep}, [x], [x], 1);
    StartSearching(nodes, code, layer, Cap(ef), ep);
    while b.cand != []
      invariant Searching(nodes, code, layer, Cap(ef), ep, b)
      invariant Frontier(nodes, layer, b.seen, b.cand, b.res)
      decreases |Owners(nodes, layer) - b.seen|, |b.cand|
    {
      var c, rest := PopNearest(b.cand);
      var worst := Farthest(b.res);
      if c.dist > b.res[worst].dist && |b.res| >= ef {
        StoppedIsDone(nodes, layer, b, c, worst);
        b := b.(cand := []);
        break;
      }
      ghost var before := b.seen;
      var b1 := b.(cand := rest);
      PopKeeps(nodes, layer, b, b1, c);
      b := ExpandNode(nodes, code, layer, ef, ep, c.id, b1);
      if b.seen != before { FewerLeft(nodes, layer, ep, before, b.seen); }
    }
    out := Drained(b.res);
    DrainKeeps(nodes, code, Cap(ef), b.seen, b.res, out);
    visited, seen := b.visited, b.seen;
  }

  lemma PopKeeps(nodes: seq<Node>, layer: nat, b: Beam, b1: Beam, c: DistNode)
    requires Frontier(nodes, layer, b.seen, b.cand, b.res) && b1.seen == b.seen && b1.res == b.res
    requires forall x :: x in b.cand <==> x == c || x in b1.cand
    ensures FrontierBut(nodes, layer, b1, c.id)
  {
    forall r | r in b1.res && r !in b1.cand && r.id != c.id ensures LinksInto(nodes, layer, b1.seen, r.id) {
      assert r in b.res && r !in b.cand;
    }
  }

  lemma FewerLeft(nodes: seq<Node>, layer: nat, ep: nat, before: set<nat>, after: set<nat>)
    requires Explored(nodes, layer, ep, after) && before <= after && before != after
    ensures |Owners(nodes, layer) - after| < |Owners(nodes, layer) - before|
  {
    var x :| x in after && x !in before;
    assert Owns(nodes, layer, x);
    var lo, hi := Owners(nodes, layer) - after, Owners(nodes, layer) - before;
    assert x in hi && lo <= hi - {x};
    SubsetCount(lo, hi - {x});
  }

  // ----- Draining -----

  /** The results in ascending order: the heap is emptied farthest first. */
  method Drained(res: seq<DistNode>) returns (out: seq<DistNode>)
    ensures multiset(out) == multiset(res) && Ascending(out)
  {
    out := [];
    var left := res;
    while left != []
      invariant multiset(left) + multiset(out) == multiset(res)
      invariant Ascending(out) && forall x, y :: x in left && y in out ==> x.dist <= y.dist
      decreases |left|
    {
      var at := Farthest(left);
      Removed(left, at);
      PushFront(left[at], out);
      out, left := [left[at]] + out, Without(left, at);
    }
  }

  lemma PushFront(x: DistNode, out: seq<DistNode>)
    requires Ascending(out) && forall y :: y in out ==> x.dist <= y.dist
    ensures Ascending([x] + out) && multiset([x] + out) == multiset(out) + multiset{x}
    ensures forall y :: y in [x] + out <==> y == x || y in out
  {
    forall i | 0 <= i < |out| ensures x.dist <= out[i].dist { assert out[i] in out; }
  }

  lemma DrainKeeps(nodes: seq<Node>, code: Code, cap: nat, seen: set<nat>, res: seq<DistNode>, out: seq<DistNode>)
    requires Nearest(nodes, code, cap, seen, res) && multiset(out) == multiset(res)
    ensures Nearest(nodes, code, cap, seen, out)
    ensures forall r :: r in out <==> r in res
  {
    assert |multiset(out)| == |out| && |multiset(res)| == |res|;
    forall r ensures r in out <==> r in res {
      assert r in out <==> r in multiset(out);
      assert r in res <==> r in multiset(res);
    }
    SameDistinct(res, out);
    forall x | x in seen ensures Placed(nodes, code, cap, out, x) {
      assert Placed(nodes, code, cap, res, x);
      if Has(res, x) {
        var i :| 0 <= i < |res| && res[i].id == x;
        assert res[i] in out;
      }
    }
  }

  lemma SameDistinct(res: seq<DistNode>, out: seq<DistNode>)
    requires DistinctNodes(res) && multiset(out) == multiset(res)
    requires forall r :: r in out <==> r in res
    ensures DistinctNodes(out)
  {
    DistinctIsOnce(res);
    DistinctIsOnce(out);
    forall i, j | 0 <= i < j < |out| ensures out[i].id != out[j].id {
      assert out[i] in res && out[j] in res && out[i] != out[j];
      var a :| 0 <= a < |res| && res[a] == out[i];
      var b :| 0 <= b < |res| && res[b] == out[j];
    }
  }

  // ----- What a beam search certifies -----

  ghost function IdsOf(xs: seq<DistNode>): set<nat> {
    set x | x in xs :: x.id
  }

  lemma NodeCount(xs: seq<DistNode>)
    requires DistinctNodes(xs)
    ensures |IdsOf(xs)| == |xs|
  {
    var ids := seq(|xs|, i requires 0 <= i < |xs| => xs[i].id);
    DistinctCount(ids);
    forall id ensures id in ids <==> id in IdsOf(xs) {
      if x :| x in xs && x.id == id {
        var i :| 0 <= i < |xs| && xs[i] == x;
        assert ids[i] == id;
      }
    }
    assert Members(ids) == IdsOf(xs);
  }

  /** As many results as the beam holds or as were evaluated, whichever is less. */
  lemma ResultCount(nodes: seq<Node>, code: Code, cap: nat, seen: set<nat>, out: seq<DistNode>)
    requires Nearest(nodes, code, cap, seen, out)
    ensures |out| == if |seen| < cap then |seen| else cap
    ensures |seen| <= cap ==> IdsOf(out) == seen
  {
    NodeCount(out);
    SubsetCount(IdsOf(out), seen);
    if x :| x in seen && x !in IdsOf(out) {
      assert Placed(nodes, code, cap, out, x);
      assert |out| == cap by {
        forall i | 0 <= i < |out| ensures out[i].id != x { assert out[i] in out; }
      }
      SubsetCount(IdsOf(out) + {x}, seen);
    } else {
      assert IdsOf(out) == seen;
    }
  }

  /** Full results certify local optimality: an unreturned neighbour of a returned node is no
      nearer than any result. */
  lemma UnreturnedIsNoNearer(nodes: seq<Node>, code: Code, layer: nat, ef: int, ep: nat, out: seq<DistNode>,
                             seen: set<nat>,
                             r: DistNode, nb: nat)
    requires BeamPromise(nodes, code, layer, ef, ep, out, seen)
    requires r in out && Owns(nodes, layer, r.id) && nb in Links(nodes, layer, r.id) && !Has(out, nb)
    ensures nb < |nodes| && |out| == Cap(ef) && forall y :: y in out ==> y.dist <= Dist(nodes, code, nb)
  {
    assert LinksInto(nodes, layer, seen, r.id);
    assert Placed(nodes, code, Cap(ef), out, nb);
  }

  /** When some closed set around the entry point fits the beam, the result is the entry point's
      whole component: itself closed, and inside every other closed set that holds the entry. */
  lemma WholeComponent(nodes: seq<Node>, code: Code, layer: nat, ef: int, ep: nat, out: seq<DistNode>, seen: set<nat>,
                       s: set<nat>)
    requires BeamPromise(nodes, code, layer, ef, ep, out, seen)
    requires ClosedOn(nodes, layer, s) && ep in s && |s| <= Cap(ef)
    ensures ep in IdsOf(out) && ClosedOn(nodes, layer, IdsOf(out))
    ensures forall t: set<nat> {:trigger ClosedOn(nodes, layer, t)} :: ClosedOn(nodes, layer, t) && ep in t ==>
                IdsOf(out) <= t
  {
    assert seen <= s;
    SubsetCount(seen, s);
    ResultCount(nodes, code, Cap(ef), seen, out);
    forall id | id in IdsOf(out) ensures LinksInto(nodes, layer, IdsOf(out), id) {
      var r :| r in out && r.id == id;
      assert LinksInto(nodes, layer, seen, r.id);
    }
  }

  // ----- Greedy descent -----

  /** No neighbour on the layer is nearer than `best`. */
  ghost predicate LocalMinimum(nodes: seq<Node>, code: Code, layer: nat, best: nat) {
    && Owns(nodes, layer, best)
    && forall nb :: nb in Links(nodes, layer, best) ==> nb < |nodes| && Dist(nodes, code, best) <= Dist(nodes, code, nb)
  }

  method GreedyClosest(nodes: seq<Node>, code: Code, ep: nat, layer: nat) returns (best: nat, visited: nat)
    requires Navigable(nodes, layer) && Owns(nodes, layer, ep)
    ensures LocalMinimum(nodes, code, layer, best)
    ensures Dist(nodes, code, best) <= Dist(nodes, code, ep)
    ensures visited >= 1 + |Links(nodes, layer, best)|
  {
    best, visited := ep, 1;
    var bestDist, improved := Dist(nodes, code, ep), true;
    while improved
      invariant Owns(nodes, layer, best) && bestDist == Dist(nodes, code, best) <= Dist(nodes, code, ep)
      invariant visited >= 1 && (!improved ==>
                                 LocalMinimum(nodes, code, layer, best) && visited >= 1 + |Links(nodes, layer, best)|)
      decreases bestDist, improved
    {
      improved := false;
      var at := best;
      var links := Links(nodes, layer, at);
      ghost var started, from := visited, bestDist;
      for j := 0 to |links|
        invariant Owns(nodes, layer, best) && bestDist == Dist(nodes, code, best) <= from
        invariant visited == started + j
        invariant improved <==> bestDist < from
        invariant !improved ==> best == at
        invariant forall i :: 0 <= i < j ==> links[i] < |nodes| && bestDist <= Dist(nodes, code, links[i])
      {
        assert links[j] in links && Owns(nodes, layer, links[j]);
        var d := Dist(nodes, code, links[j]);
        visited := visited + 1;
        if d < bestDist { best, bestDist, improved := links[j], d, true; }
      }
    }
  }

  // ----- Choosing neighbours -----

  predicate NearerFirst(a: DistNode, b: DistNode) {
    a.dist <= b.dist
  }

  /** Whether `c` is at least as near the base as to every neighbour chosen so far. */
  method Spreads(nodes: seq<Node>, c: DistNode, out: seq<nat>) returns (keep: bool)
    requires c.id < |nodes| && forall i :: 0 <= i < |out| ==> out[i] < |nodes|
    ensures keep <==> forall i :: 0 <= i < |out| ==> Dist(nodes, nodes[c.id].code, out[i]) >= c.dist
  {
    for i := 0 to |out|
      invariant forall j :: 0 <= j < i ==> Dist(nodes, nodes[c.id].code, out[j]) >= c.dist
    {
      if Dist(nodes, nodes[c.id].code, out[i]) < c.dist { return false; }
    }
    return true;
  }

  /** The candidates with their distances, nearest first. */
  ghost predicate Arranged(nodes: seq<Node>, base: Code, cands: seq<nat>, arr: seq<DistNode>) {
    && Ascending(arr) && |arr| == |cands| && (Distinct(cands) ==> DistinctNodes(arr))
    && (forall i :: 0 <= i < |arr| ==>
        arr[i].id in cands && arr[i].id < |nodes| && arr[i].dist == Dist(nodes, base, arr[i].id))
    && (forall c :: c in cands ==> Has(arr, c))
  }

  method Arrange(nodes: seq<Node>, base: Code, cands: seq<nat>) returns (arr: seq<DistNode>)
    requires forall i :: 0 <= i < |cands| ==> cands[i] < |nodes|
    ensures Arranged(nodes, base, cands, arr)
  {
    arr := [];
    for i := 0 to |cands|
      invariant |arr| == i && forall j :: 0 <= j < i ==> arr[j] == DistNode(cands[j], Dist(nodes, base, cands[j]))
    {
      arr := arr + [DistNode(cands[i], Dist(nodes, base, cands[i]))];
    }
    ghost var raw := arr;
    arr := Sort(NearerFirst, arr);
    SortSorts(NearerFirst, raw);
    SortMembers(NearerFirst, raw);
    SortedIsArranged(nodes, base, cands, raw, arr);
  }

  lemma SortedIsArranged(nodes: seq<Node>, base: Code, cands: seq<nat>, raw: seq<DistNode>, arr: seq<DistNode>)
    requires |raw| == |cands| == |arr| && multiset(arr) == multiset(raw) && SortedBy(NearerFirst, arr)
    requires forall x :: x in arr <==> x in raw
    requires forall i :: 0 <= i < |cands| ==>
                 cands[i] < |nodes| && raw[i] == DistNode(cands[i], Dist(nodes, base, cands[i]))
    ensures Arranged(nodes, base, cands, arr)
  {
    if Distinct(cands) { SameDistinct(raw, arr); }
    forall i | 0 <= i < |arr|
      ensures arr[i].id in cands && arr[i].id < |nodes| && arr[i].dist == Dist(nodes, base, arr[i].id)
    {
      assert arr[i] in raw;
    }
    forall c | c in cands ensures Has(arr, c) {
      var i :| 0 <= i < |cands| && cands[i] == c;
      assert raw[i] in arr;
    }
  }

  /** Distance from a code to a node, zero for no node. */
  function Far(nodes: seq<Node>, base: Code, id: nat): nat {
    if id < |nodes| then Dist(nodes, base, id) else 0
  }

  /** Distance between two nodes, zero for no node. */
  function Apart(nodes: seq<Node>, a: nat, b: nat): nat {
    if a < |nodes| then Far(nodes, nodes[a].code, b) else 0
  }

  /** No chosen node is nearer to one chosen before it than to the base. */
  ghost predicate Diverse(nodes: seq<Node>, base: Code, chosen: seq<nat>) {
    forall i, j :: 0 <= i < j < |chosen| ==> Apart(nodes, chosen[j], chosen[i]) >= Far(nodes, base, chosen[j])
  }

  /** Some chosen node is nearer to `c` than the base is. */
  ghost predicate Blocked(nodes: seq<Node>, base: Code, chosen: seq<nat>, c: nat) {
    exists i :: 0 <= i < |chosen| && Apart(nodes, c, chosen[i]) < Far(nodes, base, c)
  }

  ghost predicate Settled(nodes: seq<Node>, base: Code, chosen: seq<nat>, c: nat) {
    c in chosen || Blocked(nodes, base, chosen, c)
  }

  lemma SettledStays(nodes: seq<Node>, base: Code, chosen: seq<nat>, x: nat, c: nat)
    requires Settled(nodes, base, chosen, c)
    ensures Settled(nodes, base, chosen + [x], c)
  {
    if Blocked(nodes, base, chosen, c) {
      var i :| 0 <= i < |chosen| && Apart(nodes, c, chosen[i]) < Far(nodes, base, c);
      assert (chosen + [x])[i] == chosen[i];
    }
  }

  /** `out` names candidates, each at most once, at most `m`. */
  ghost predicate Chosen(arr: seq<DistNode>, m: nat, out: seq<nat>) {
    && |out| <= m && (DistinctNodes(arr) ==> Distinct(out))
    && (forall i :: 0 <= i < |out| ==> Has(arr, out[i]))
    && (out != [] ==> arr != [] && out[0] == arr[0].id)
  }

  lemma ChooseOne(arr: seq<DistNode>, m: nat, out: seq<nat>, n: nat)
    requires Chosen(arr, m, out) && n < |arr| && |out| < m && (DistinctNodes(arr) ==> arr[n].id !in out) &&
             (out == [] ==> n == 0)
    ensures Chosen(arr, m, out + [arr[n].id])
  {
    var more := out + [arr[n].id];
    forall i | 0 <= i < |more| ensures Has(arr, more[i]) {
      assert i == |out| ==> arr[n].id == more[i];
    }
  }

  /** What the first pass has settled among the first `n` candidates. */
  ghost predicate Spreading(nodes: seq<Node>, base: Code, arr: seq<DistNode>, n: nat, out: seq<nat>)
    requires n <= |arr|
  {
    && Diverse(nodes, base, out)
    && (forall i {:trigger Settled(nodes, base, out, arr[i].id)} :: 0 <= i < n ==> Settled(nodes, base, out, arr[i].id))
  }

  lemma SpreadMore(nodes: seq<Node>, base: Code, arr: seq<DistNode>, n: nat, out: seq<nat>)
    requires n < |arr| && Spreading(nodes, base, arr, n, out) && !Blocked(nodes, base, out, arr[n].id)
    ensures Spreading(nodes, base, arr, n + 1, out + [arr[n].id])
  {
    var more := out + [arr[n].id];
    forall i | 0 <= i < n + 1 ensures Settled(nodes, base, more, arr[i].id) {
      if i < n { SettledStays(nodes, base, out, arr[n].id, arr[i].id); } else { assert more[|out|] == arr[n].id; }
    }
  }

  /** First pass: candidates nearer the base than to anything chosen before them. */
  method ChooseSpread(nodes: seq<Node>, ghost base: Code, ghost cands: seq<nat>, arr: seq<DistNode>, m: nat)
    returns (out: seq<nat>)
    requires Arranged(nodes, base, cands, arr)
    ensures Chosen(arr, m, out) && Diverse(nodes, base, out)
    ensures m > 0 && arr != [] ==> out != []
    ensures |out| == m || Spreading(nodes, base, arr, |arr|, out)
  {
    out := [];
    for n := 0 to |arr|
      invariant Chosen(arr, m, out) && (m > 0 && n > 0 ==> out != [])
      invariant Spreading(nodes, base, arr, n, out)
      invariant forall i :: 0 <= i < |out| ==> out[i] < |nodes|
      invariant DistinctNodes(arr) ==> forall i, j :: 0 <= i < |out| && n <= j < |arr| ==> out[i] != arr[j].id
    {
      if |out| >= m { return; }
      var keep := Spreads(nodes, arr[n], out);
      if keep {
        ChooseOne(arr, m, out, n);
        SpreadMore(nodes, base, arr, n, out);
        out := out + [arr[n].id];
      } else {
        assert Blocked(nodes, base, out, arr[n].id);
      }
    }
  }

  /** Beyond place `k`, `out` lists the nearest of the rest, nearest first. */
  ghost predicate Topped(nodes: seq<Node>, base: Code, cands: seq<nat>, out: seq<nat>, k: nat) {
    && (forall i, j :: k <= i < j < |out| ==> Far(nodes, base, out[i]) <= Far(nodes, base, out[j]))
    && (forall i, c :: k <= i < |out| && c in cands && c !in out ==> Far(nodes, base, out[i]) <= Far(nodes, base, c))
  }

  /** Second pass: the nearest of the rest, until there are `m`. */
  method TopUp(ghost nodes: seq<Node>, ghost base: Code, ghost cands: seq<nat>, arr: seq<DistNode>, m: nat,
               out0: seq<nat>) returns (out: seq<nat>)
    requires Arranged(nodes, base, cands, arr) && Chosen(arr, m, out0) && (m > 0 && arr != [] ==> out0 != [])
    ensures Chosen(arr, m, out) && out0 <= out && Topped(nodes, base, cands, out, |out0|)
    ensures |out| == m || forall i :: 0 <= i < |arr| ==> arr[i].id in out
  {
    out := out0;
    for n := 0 to |arr|
      invariant Chosen(arr, m, out) && out0 <= out && (m > 0 && arr != [] ==> out != [])
      invariant forall i :: 0 <= i < n ==> arr[i].id in out
      invariant Topping(nodes, base, arr, n, out, |out0|)
    {
      ToppingMore(nodes, base, cands, arr, n, out, |out0|);
      if |out| >= m {
        RestIsFarther(nodes, base, cands, arr, n, out, |out0|);
        return;
      }
      if arr[n].id !in out {
        ChooseOne(arr, m, out, n);
        out := out + [arr[n].id];
      }
    }
    RestIsFarther(nodes, base, cands, arr, |arr|, out, |out0|);
  }

  /** The second pass so far: ascending, and no farther than any candidate still ahead. */
  ghost predicate Topping(nodes: seq<Node>, base: Code, arr: seq<DistNode>, n: nat, out: seq<nat>, k: nat) {
    && (forall i, j :: k <= i < j < |out| ==> Far(nodes, base, out[i]) <= Far(nodes, base, out[j]))
    && (forall i, j :: k <= i < |out| && n <= j < |arr| ==> Far(nodes, base, out[i]) <= arr[j].dist)
  }

  lemma ToppingMore(nodes: seq<Node>, base: Code, cands: seq<nat>, arr: seq<DistNode>, n: nat, out: seq<nat>, k: nat)
    requires Arranged(nodes, base, cands, arr) && n < |arr| && k <= |out| && Topping(nodes, base, arr, n, out, k)
    ensures Topping(nodes, base, arr, n + 1, out, k) && Topping(nodes, base, arr, n + 1, out + [arr[n].id], k)
  {
    assert Far(nodes, base, arr[n].id) == arr[n].dist;
  }

  lemma RestIsFarther(nodes: seq<Node>, base: Code, cands: seq<nat>, arr: seq<DistNode>, n: nat, out: seq<nat>, k: nat)
    requires n <= |arr| && Arranged(nodes, base, cands, arr) && forall i :: 0 <= i < n ==> arr[i].id in out
    requires Topping(nodes, base, arr, n, out, k)
    ensures Topped(nodes, base, cands, out, k)
  {
    forall i, c | k <= i < |out| && c in cands && c !in out ensures Far(nodes, base, out[i]) <= Far(nodes, base, c) {
      var j :| 0 <= j < |arr| && arr[j].id == c;
      assert j >= n;
    }
  }

  /** The first `k` chosen are diverse and leave out nothing they do not block; the rest tops up. */
  ghost predicate TwoPasses(nodes: seq<Node>, base: Code, cands: seq<nat>, m: nat, out: seq<nat>, k: nat) {
    && k <= |out| && Diverse(nodes, base, out[..k])
    && (k == m || forall c :: c in cands ==> Settled(nodes, base, out[..k], c))
    && Topped(nodes, base, cands, out, k)
  }

  /** At most `m` of the candidates, the nearest of all first, each once if they are distinct;
      fewer only when there are no others; chosen for spread before closeness. */
  ghost predicate Neighbours(nodes: seq<Node>, base: Code, cands: seq<nat>, m: nat, out: seq<nat>) {
    && (forall o :: o in out ==> o in cands)
    && |out| <= m && (|out| == m || forall c :: c in cands ==> c in out)
    && (Distinct(cands) ==> Distinct(out) && |out| == (if |cands| < m then |cands| else m))
    && (out != [] ==> forall c :: c in cands ==> Far(nodes, base, out[0]) <= Far(nodes, base, c))
    && (exists k {:trigger TwoPasses(nodes, base, cands, m, out, k)} :: TwoPasses(nodes, base, cands, m, out, k))
  }

  method SelectNeighbors(nodes: seq<Node>, base: Code, cands: seq<nat>, m: nat) returns (out: seq<nat>)
    requires forall i :: 0 <= i < |cands| ==> cands[i] < |nodes|
    ensures Neighbours(nodes, base, cands, m, out)
  {
    var arr := Arrange(nodes, base, cands);
    out := ChooseSpread(nodes, base, cands, arr, m);
    ghost var spread := out;
    if |out| < m {
      out := TopUp(nodes, base, cands, arr, m, out);
    }
    PassesMade(nodes, base, cands, m, arr, spread, out);
    ChosenAreNeighbours(nodes, base, cands, m, arr, out);
  }

  lemma PassesMade(nodes: seq<Node>, base: Code, cands: seq<nat>, m: nat, arr: seq<DistNode>, spread: seq<nat>,
                   out: seq<nat>)
    requires Arranged(nodes, base, cands, arr) && spread <= out && Diverse(nodes, base, spread)
    requires |spread| == m || Spreading(nodes, base, arr, |arr|, spread)
    requires spread == out || Topped(nodes, base, cands, out, |spread|)
    ensures TwoPasses(nodes, base, cands, m, out, |spread|)
  {
    assert out[..|spread|] == spread;
    if |spread| != m {
      forall c | c in cands ensures Settled(nodes, base, spread, c) {
        var i :| 0 <= i < |arr| && arr[i].id == c;
        assert Settled(nodes, base, spread, arr[i].id);
      }
    }
  }

  lemma ChosenAreNeighbours(nodes: seq<Node>, base: Code, cands: seq<nat>, m: nat, arr: seq<DistNode>, out: seq<nat>)
    requires Arranged(nodes, base, cands, arr) && Chosen(arr, m, out)
    requires |out| == m || forall i :: 0 <= i < |arr| ==> arr[i].id in out
    requires exists k {:trigger TwoPasses(nodes, base, cands, m, out, k)} :: TwoPasses(nodes, base, cands, m, out, k)
    ensures Neighbours(nodes, base, cands, m, out)
  {
    forall o | o in out ensures o in cands {
      var i :| 0 <= i < |out| && out[i] == o;
      assert Has(arr, o);
    }
    if |out| < m {
      forall c | c in cands ensures c in out {
        var i :| 0 <= i < |arr| && arr[i].id == c;
      }
    }
    if Distinct(cands) {
      DistinctFits(out, Members(cands));
      DistinctCount(cands);
      if |out| < m {
        DistinctFits(cands, Members(out));
        DistinctCount(out);
      }
    }
    if out != [] {
      forall c | c in cands ensures Far(nodes, base, out[0]) <= Far(nodes, base, c) {
        var i :| 0 <= i < |arr| && arr[i].id == c;
        assert arr[0].dist <= arr[i].dist;
      }
    }
  }
}
