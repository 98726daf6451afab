/** Inserting into and searching a layered navigable small-world graph
    (service/annindex/hnsw.go). */
module HnswGraph {
  import opened Hnsw
  import opened Sorting

  // ----- Well-formed graphs -----

  /** Neighbour cap: twice as wide on the base layer. */
  function Degree(m: nat, layer: nat): nat {
    if layer == 0 then 2 * m else m
  }

  /** A neighbour list fit for `id`: distinct owners of the layer, never itself, within the cap. */
  ghost predicate GoodList(nodes: seq<Node>, m: nat, layer: nat, id: nat, links: seq<nat>) {
    && Distinct(links) && |links| <= Degree(m, layer)
    && forall nb :: nb in links ==> nb != id && Owns(nodes, layer, nb)
  }

  ghost predicate GoodAt(nodes: seq<Node>, m: nat, layer: nat, id: nat)
    requires Owns(nodes, layer, id)
  {
    GoodList(nodes, m, layer, id, Links(nodes, layer, id))
  }

  ghost predicate WellFormed(nodes: seq<Node>, m: nat) {
    forall layer: nat, id: nat {:trigger GoodAt(nodes, m, layer, id)} :: Owns(nodes, layer, id) ==>
            GoodAt(nodes, m, layer, id)
  }

  lemma DegreesAreBounded(nodes: seq<Node>, m: nat)
    requires WellFormed(nodes, m)
    ensures forall l: nat, i: nat {:trigger Links(nodes, l, i)} :: Owns(nodes, l, i) ==>
              |Links(nodes, l, i)| <= if l == 0 then 2 * m else m
  {
    forall l: nat, i: nat | Owns(nodes, l, i) ensures |Links(nodes, l, i)| <= if l == 0 then 2 * m else m {
      assert GoodAt(nodes, m, l, i);
    }
  }

  lemma WellFormedIsNavigable(nodes: seq<Node>, m: nat, layer: nat)
    requires WellFormed(nodes, m)
    ensures Navigable(nodes, layer)
  {
    forall i: nat, nb | Owns(nodes, layer, i) && nb in Links(nodes, layer, i) ensures Owns(nodes, layer, nb) {
      assert GoodAt(nodes, m, layer, i);
    }
  }

  /** Same codes and heights; only neighbour lists may differ. */
  ghost predicate SameShape(a: seq<Node>, b: seq<Node>) {
    |a| == |b| && forall i :: 0 <= i < |a| ==> a[i].code == b[i].code && |a[i].conns| == |b[i].conns|
  }

  function SetLinks(nodes: seq<Node>, layer: nat, id: nat, links: seq<nat>): seq<Node>
    requires Owns(nodes, layer, id)
  {
    nodes[id := nodes[id].(conns := nodes[id].conns[layer := links])]
  }

  lemma SetLinksOnly(nodes: seq<Node>, layer: nat, id: nat, links: seq<nat>)
    requires Owns(nodes, layer, id)
    ensures var next := SetLinks(nodes, layer, id, links);
            && SameShape(nodes, next)
            && (forall l: nat, i: nat :: Owns(next, l, i) <==> Owns(nodes, l, i))
            && (forall l: nat, i: nat :: Owns(nodes, l, i) ==>
                  Links(next, l, i) == if l == layer && i == id then links else Links(nodes, l, i))
  {
  }

  lemma SetLinksKeeps(nodes: seq<Node>, m: nat, layer: nat, id: nat, links: seq<nat>)
    requires WellFormed(nodes, m) && Owns(nodes, layer, id) && GoodList(nodes, m, layer, id, links)
    ensures WellFormed(SetLinks(nodes, layer, id, links), m)
  {
    var next := SetLinks(nodes, layer, id, links);
    SetLinksOnly(nodes, layer, id, links);
    forall l: nat, i: nat | Owns(next, l, i) ensures GoodAt(next, m, l, i) {
      assert GoodAt(nodes, m, l, i);
    }
  }

  /** Nothing on the layer leads to `id`, and `id` leads nowhere. */
  ghost predicate Unlinked(nodes: seq<Node>, layer: nat, id: nat) {
    && Owns(nodes, layer, id) && Links(nodes, layer, id) == []
    && forall i: nat {:trigger Links(nodes, layer, i)} :: Owns(nodes, layer, i) ==> id !in Links(nodes, layer, i)
  }

  /** A search cannot find a node nothing leads to. */
  lemma UnlinkedIsNotFound(nodes: seq<Node>, layer: nat, ep: nat, id: nat, seen: set<nat>)
    requires Navigable(nodes, layer) && Unlinked(nodes, layer, id) && Explored(nodes, layer, ep, seen) && ep != id
    ensures id !in seen
  {
    var s := Owners(nodes, layer) - {id};
    forall i | i in s ensures LinksInto(nodes, layer, s, i) {
      forall nb | nb in Links(nodes, layer, i) ensures nb in s { assert Owns(nodes, layer, nb); }
    }
    assert ClosedOn(nodes, layer, s);
    assert ep in s;
  }

  // ----- One-way links -----

  /** `nb` links back to `i`, or is full. */
  ghost predicate Mutual(nodes: seq<Node>, m: nat, layer: nat, i: nat, nb: nat) {
    Owns(nodes, layer, nb) && (i in Links(nodes, layer, nb) || |Links(nodes, layer, nb)| == Degree(m, layer))
  }

  /** Every link is mutual or points at a full node, except those from `id` on `layer` into
      `rest`, which are still being linked back. */
  ghost predicate MutualBut(nodes: seq<Node>, m: nat, layer: nat, id: nat, rest: set<nat>) {
    forall l: nat, i: nat, nb {:trigger Mutual(nodes, m, l, i, nb)} :: Owns(nodes, l, i) && nb in Links(nodes, l, i) ==>
      Mutual(nodes, m, l, i, nb) || (l == layer && i == id && nb in rest)
  }

  ghost predicate MutualLinks(nodes: seq<Node>, m: nat) {
    MutualBut(nodes, m, 0, 0, {})
  }

  /** `links` is the list of `nb` with `id` added, pruned only when that made it overflow. */
  ghost predicate LinkedBack(nodes: seq<Node>, m: nat, layer: nat, id: nat, nb: nat, links: seq<nat>)
    requires Owns(nodes, layer, nb)
  {
    var all := Links(nodes, layer, nb) + [id];
    if |all| <= Degree(m, layer) then links == all
    else Neighbours(nodes, nodes[nb].code, all, Degree(m, layer), links) && |links| == Degree(m, layer)
  }

  lemma LinkBackIsMutual(nodes: seq<Node>, m: nat, layer: nat, id: nat, nb: nat, links: seq<nat>, rest: set<nat>)
    requires MutualBut(nodes, m, layer, id, rest) && Owns(nodes, layer, id) && Owns(nodes, layer, nb) && nb != id
    requires nb in Links(nodes, layer, id) && LinkedBack(nodes, m, layer, id, nb, links)
    ensures MutualBut(SetLinks(nodes, layer, nb, links), m, layer, id, rest - {nb})
  {
    var next := SetLinks(nodes, layer, nb, links);
    SetLinksOnly(nodes, layer, nb, links);
    forall l: nat, i: nat, x | Owns(next, l, i) && x in Links(next, l, i)
      ensures Mutual(next, m, l, i, x) || (l == layer && i == id && x in rest - {nb})
    {
      assert Owns(nodes, l, i);
      if l == layer && i == nb && x == id {
        assert Mutual(next, m, l, i, x);
      } else {
        assert x in Links(nodes, l, i);
        assert Mutual(nodes, m, l, i, x) || (l == layer && i == id && x in rest);
        if l == layer && x == nb && i == id { assert Mutual(next, m, l, i, x); }
      }
    }
  }

  /** Giving an unlinked node its list leaves exactly those links to be returned. */
  lemma FirstLinks(nodes: seq<Node>, m: nat, layer: nat, id: nat, links: seq<nat>)
    requires MutualLinks(nodes, m) && Unlinked(nodes, layer, id)
    ensures MutualBut(SetLinks(nodes, layer, id, links), m, layer, id, Members(links))
  {
    var next := SetLinks(nodes, layer, id, links);
    SetLinksOnly(nodes, layer, id, links);
    forall l: nat, i: nat, x | Owns(next, l, i) && x in Links(next, l, i)
      ensures Mutual(next, m, l, i, x) || (l == layer && i == id && x in Members(links))
    {
      if !(l == layer && i == id) {
        assert x in Links(nodes, l, i) && Mutual(nodes, m, l, i, x);
      }
    }
  }

  // ----- Linking on one layer -----

  /** Adds `id` to the neighbours of `nb`, pruning the list when it grows past the cap. */
  method LinkBack(nodes0: seq<Node>, m: nat, layer: nat, id: nat, nb: nat) returns (nodes: seq<Node>)
    requires WellFormed(nodes0, m) && Owns(nodes0, layer, id) && Owns(nodes0, layer, nb)
    requires nb != id && id !in Links(nodes0, layer, nb)
    ensures WellFormed(nodes, m)
    ensures exists links :: nodes == SetLinks(nodes0, layer, nb, links) && LinkedBack(nodes0, m, layer, id, nb, links)
  {
    assert GoodAt(nodes0, m, layer, nb);
    var links := Links(nodes0, layer, nb) + [id];
    if |links| > Degree(m, layer) {
      forall i | 0 <= i < |links|
        ensures links[i] < |nodes0|
      {
        assert links[i] == id || links[i] in Links(nodes0, layer, nb);
      }
      ghost var all := links;
      links := SelectNeighbors(nodes0, nodes0[nb].code, links, Degree(m, layer));
      assert forall x :: x in all ==> x != nb && Owns(nodes0, layer, x);
    }
    SetLinksKeeps(nodes0, m, layer, nb, links);
    nodes := SetLinks(nodes0, layer, nb, links);
  }

  /** Only lists on `layer` differ, and the list of `id` does not. */
  ghost predicate OnlyLayer(a: seq<Node>, b: seq<Node>, layer: nat, id: nat) {
    && SameShape(a, b)
    && (forall l: nat, i: nat {:trigger Owns(b, l, i)} {:trigger Owns(a, l, i)} :: Owns(b, l, i) <==> Owns(a, l, i))
    && (forall l: nat, i: nat {:trigger Links(b, l, i)} :: Owns(a, l, i) && (l != layer || i == id) ==>
        Links(b, l, i) == Links(a, l, i))
  }

  lemma HeadOnce(xs: seq<nat>, j: nat)
    requires Distinct(xs) && j < |xs|
    ensures Members(xs[j..]) == {xs[j]} + Members(xs[j + 1..]) && xs[j] !in Members(xs[j + 1..])
  {
    assert xs[j..] == [xs[j]] + xs[j + 1..];
  }

  /** Links every chosen neighbour back to `id`. */
  method LinkAll(nodes0: seq<Node>, m: nat, layer: nat, id: nat, neighbours: seq<nat>) returns (nodes: seq<Node>)
    requires WellFormed(nodes0, m) && Owns(nodes0, layer, id) && GoodList(nodes0, m, layer, id, neighbours)
    requires forall nb :: nb in neighbours ==> Owns(nodes0, layer, nb) && id !in Links(nodes0, layer, nb)
    requires Links(nodes0, layer, id) == neighbours && MutualBut(nodes0, m, layer, id, Members(neighbours))
    ensures WellFormed(nodes, m) && OnlyLayer(nodes0, nodes, layer, id) && MutualLinks(nodes, m)
  {
    nodes := nodes0;
    for j := 0 to |neighbours|
      invariant WellFormed(nodes, m) && OnlyLayer(nodes0, nodes, layer, id)
      invariant MutualBut(nodes, m, layer, id, Members(neighbours[j..]))
      invariant forall i :: j <= i < |neighbours| ==>
                    Owns(nodes, layer, neighbours[i]) && id !in Links(nodes, layer, neighbours[i])
    {
      var nb := neighbours[j];
      assert nb in neighbours;
      ghost var before := nodes;
      nodes := LinkBack(nodes, m, layer, id, nb);
      ghost var links :| nodes == SetLinks(before, layer, nb, links) && LinkedBack(before, m, layer, id, nb, links);
      SetLinksOnly(before, layer, nb, links);
      LinkBackIsMutual(before, m, layer, id, nb, links, Members(neighbours[j..]));
      assert Members(neighbours[j..]) - {nb} == Members(neighbours[j + 1..]) by { HeadOnce(neighbours, j); }
    }
    assert Members(neighbours[|neighbours|..]) == {};
  }

  /** The nodes of a search result, in its order. */
  function Hits(found: seq<DistNode>): (ids: seq<nat>)
    ensures |ids| == |found| && forall i :: 0 <= i < |found| ==> ids[i] == found[i].id
  {
    seq(|found|, i requires 0 <= i < |found| => found[i].id)
  }

  /** Searches one layer for neighbours of the new node and links both ways. */
  method LinkLayer(nodes0: seq<Node>, m: nat, ef: int, layer: nat, id: nat, ep: nat)
    returns (nodes: seq<Node>, next: nat, ghost found: seq<DistNode>, ghost seen: set<nat>)
    requires WellFormed(nodes0, m) && MutualLinks(nodes0, m) && m > 0 && Unlinked(nodes0, layer, id)
    requires Owns(nodes0, layer, ep) && ep != id
    ensures WellFormed(nodes, m) && MutualLinks(nodes, m) && SameShape(nodes0, nodes)
    ensures forall l: nat, i: nat :: Owns(nodes, l, i) <==> Owns(nodes0, l, i)
    ensures forall l: nat, i: nat {:trigger Links(nodes, l, i)} :: Owns(nodes0, l, i) && l != layer ==>
                Links(nodes, l, i) == Links(nodes0, l, i)
    ensures Links(nodes, layer, id) != []
    ensures Owns(nodes, layer, next) && next != id
    // The new node's neighbours are chosen from a beam search, whose nearest hit leads on.
    ensures BeamPromise(nodes0, nodes0[id].code, layer, ef, ep, found, seen) && next == found[0].id
    ensures Neighbours(nodes0, nodes0[id].code, Hits(found), Degree(m, layer), Links(nodes, layer, id))
  {
    WellFormedIsNavigable(nodes0, m, layer);
    var hits, _, evaluated := SearchLayer(nodes0, nodes0[id].code, ep, ef, layer);
    found, seen := hits, evaluated;
    UnlinkedIsNotFound(nodes0, layer, ep, id, seen);
    var ids := Hits(hits);
    forall i | 0 <= i < |ids| ensures ids[i] in seen && Owns(nodes0, layer, ids[i]) { assert hits[i] in hits; }
    assert forall i, j :: 0 <= i < j < |ids| ==> ids[i] != ids[j];
    var neighbours := SelectNeighbors(nodes0, nodes0[id].code, ids, Degree(m, layer));
    forall nb | nb in neighbours ensures nb != id && Owns(nodes0, layer, nb) && id !in Links(nodes0, layer, nb) {
      assert nb in ids;
    }
    SetLinksKeeps(nodes0, m, layer, id, neighbours);
    SetLinksOnly(nodes0, layer, id, neighbours);
    FirstLinks(nodes0, m, layer, id, neighbours);
    nodes := LinkAll(SetLinks(nodes0, layer, id, neighbours), m, layer, id, neighbours);
    next := hits[0].id;
    assert next == ids[0] && Owns(nodes0, layer, next);
  }

  /** A fresh node, one empty list per layer it owns, joins a well-formed graph unlinked. */
  lemma AppendKeeps(nodes: seq<Node>, m: nat, code: Code, layer: nat)
    requires WellFormed(nodes, m) && MutualLinks(nodes, m)
    ensures var next := nodes + [Node(code, seq(layer + 1, _ => []))];
            && WellFormed(next, m) && MutualLinks(next, m)
            && (forall l: nat :: l <= layer ==> Unlinked(next, l, |nodes|))
            && (forall l: nat, i: nat :: Owns(nodes, l, i) ==> Owns(next, l, i))
  {
    var next := nodes + [Node(code, seq(layer + 1, _ => []))];
    forall l: nat, i: nat | Owns(next, l, i) ensures GoodAt(next, m, l, i) && |nodes| !in Links(next, l, i) {
      if i < |nodes| { assert Owns(nodes, l, i) && GoodAt(nodes, m, l, i) && Links(next, l, i) == Links(nodes, l, i); }
    }
    forall l: nat, i: nat, nb | Owns(next, l, i) && nb in Links(next, l, i) ensures Mutual(next, m, l, i, nb) {
      assert i < |nodes| && nb in Links(nodes, l, i) && Mutual(nodes, m, l, i, nb);
    }
  }

  /** Greedy descent from layer `from` to just above layer `to`. */
  method Descend(nodes: seq<Node>, m: nat, code: Code, entry: nat, from: nat, to: nat) returns (ep: nat, visited: nat)
    requires WellFormed(nodes, m) && Owns(nodes, from, entry)
    ensures ep < |nodes| && forall l: nat :: l <= to && l <= from ==> Owns(nodes, l, ep)
    ensures from <= to ==> ep == entry
    ensures from > to ==> LocalMinimum(nodes, code, to + 1, ep)
    ensures ep == entry || exists l: nat :: l > to && Owns(nodes, l, ep)
  {
    ep, visited := entry, 0;
    var l := from;
    while l > to
      invariant 0 <= l <= from && Owns(nodes, l, ep)
      invariant from <= to ==> l == from && ep == entry
      invariant from > to ==> l >= to
      invariant l < from ==> LocalMinimum(nodes, code, l + 1, ep)
      invariant ep == entry || exists k: nat :: k > to && Owns(nodes, k, ep)
    {
      WellFormedIsNavigable(nodes, m, l);
      var evaluated;
      ep, evaluated := GreedyClosest(nodes, code, ep, l);
      visited := visited + evaluated;
      assert Owns(nodes, l, ep);
      l := l - 1;
    }
  }

  /** The layers of `id` up to `top` have been linked down to, but not including, `l`. */
  ghost predicate LinkedDownTo(nodes: seq<Node>, id: nat, top: nat, l: int) {
    && (forall k: nat :: k <= top && k > l ==> Owns(nodes, k, id) && Links(nodes, k, id) != [])
    && (forall k: nat :: k <= l ==> Unlinked(nodes, k, id))
  }

  /** Links the new node on every layer it shares with the graph. */
  method LinkDown(nodes0: seq<Node>, m: nat, ef: int, id: nat, top: nat, ep0: nat) returns (nodes: seq<Node>)
    requires WellFormed(nodes0, m) && MutualLinks(nodes0, m) && m > 0 && ep0 != id && Owns(nodes0, top, ep0)
    requires forall l: nat :: l <= top ==> Unlinked(nodes0, l, id)
    ensures WellFormed(nodes, m) && MutualLinks(nodes, m) && SameShape(nodes0, nodes)
    ensures forall l: nat :: l <= top ==> Owns(nodes, l, id) && Links(nodes, l, id) != []
  {
    nodes := nodes0;
    var ep, l := ep0, top as int;
    while l >= 0
      invariant -1 <= l <= top
      invariant WellFormed(nodes, m) && MutualLinks(nodes, m) && SameShape(nodes0, nodes)
      invariant LinkedDownTo(nodes, id, top, l)
      invariant ep != id && (l >= 0 ==> Owns(nodes, l, ep))
    {
      ghost var before := nodes;
      ghost var found, seen;
      nodes, ep, found, seen := LinkLayer(nodes, m, ef, l, id, ep);
      LinkedOneMore(before, nodes, id, top, l);
      l := l - 1;
    }
  }

  lemma LinkedOneMore(a: seq<Node>, b: seq<Node>, id: nat, top: nat, l: nat)
    requires LinkedDownTo(a, id, top, l) && l <= top
    requires forall k: nat, i: nat :: Owns(b, k, i) <==> Owns(a, k, i)
    requires forall k: nat, i: nat {:trigger Links(b, k, i)} :: Owns(a, k, i) && k != l ==>
                 Links(b, k, i) == Links(a, k, i)
    requires Owns(b, l, id) && Links(b, l, id) != []
    ensures LinkedDownTo(b, id, top, l - 1)
  {
    forall k: nat | k <= l - 1 ensures Unlinked(b, k, id) {
      assert Unlinked(a, k, id);
    }
  }

  class Graph {
    var nodes: seq<Node>
    var vids: seq<int>
    var entry: int
    var topLayer: nat
    const m: nat
    const efConstr: int

    constructor (m: int, efConstr: int)
      ensures Valid() && nodes == [] && vids == []
      ensures this.m == (if m < 2 then 2 else m) && this.efConstr == efConstr
    {
      this.m, this.efConstr := if m < 2 then 2 else m, efConstr;
      nodes, vids, entry, topLayer := [], [], -1, 0;
    }

    /** Every node owns the base layer; the entry node is as tall as any; every link is returned
        unless its target is full. */
    ghost predicate Valid()
      reads this
    {
      && m >= 2 && |vids| == |nodes| && WellFormed(nodes, m) && MutualLinks(nodes, m)
      && (entry == -1 <==> nodes == [])
      && (nodes != [] ==> 0 <= entry < |nodes| && |nodes[entry].conns| == topLayer + 1)
      && (forall i :: 0 <= i < |nodes| ==> 1 <= |nodes[i].conns| <= topLayer + 1)
    }

    /** Every stored code is as wide as `code`: measured against a narrower one, the loop over
        the words of `code` would run out of range. */
    ghost predicate Fits(code: Code)
      reads this
    {
      forall i :: 0 <= i < |nodes| ==> |nodes[i].code| == |code|
    }

    /** The part of an insert before the first distance: the node is there, unlinked. */
    method Append(vid: int, code: Code, layer: nat)
      modifies this`nodes, this`vids
      ensures nodes == old(nodes) + [Node(code, seq(layer + 1, _ => []))] && vids == old(vids) + [vid]
    {
      nodes, vids := nodes + [Node(code, seq(layer + 1, _ => []))], vids + [vid];
    }

    /** `layer` is the height drawn for the new node. */
    method Insert(vid: int, code: Code, layer: nat) returns (id: nat)
      requires Valid() && Fits(code)
      modifies this
      ensures Valid()
      ensures id == old(|nodes|) && vids == old(vids) + [vid]
      ensures |nodes| == id + 1 && nodes[id].code == code && |nodes[id].conns| == layer + 1
      ensures forall i :: 0 <= i < id ==>
                  nodes[i].code == old(nodes)[i].code && |nodes[i].conns| == |old(nodes)[i].conns|
      ensures topLayer == (if old(nodes) == [] || layer > old(topLayer) then layer else old(topLayer))
      ensures old(nodes) != [] ==> forall l: nat :: l <= layer && l <= old(topLayer) ==> Links(nodes, l, id) != []
      // No node has more than m neighbours on a layer, or twice that on the base layer.
      ensures forall l: nat, i: nat {:trigger Links(nodes, l, i)} :: Owns(nodes, l, i) ==>
                |Links(nodes, l, i)| <= if l == 0 then 2 * m else m
    {
      id := |nodes|;
      AppendKeeps(nodes, m, code, layer);
      Append(vid, code, layer);
      if entry == -1 {
        entry, topLayer := id, layer;
        DegreesAreBounded(nodes, m);
        return;
      }
      var ep, _ := Descend(nodes, m, code, entry, topLayer, layer);
      assert ep != id;
      nodes := LinkDown(nodes, m, efConstr, id, if layer < topLayer then layer else topLayer, ep);
      if layer > topLayer {
        topLayer, entry := layer, id;
      }
      DegreesAreBounded(nodes, m);
    }

    /** Up to `k` hits in ascending distance: the head of a base-layer beam search. Cutting the hits
        of a non-empty graph to a negative count panics. */
    method Search(code: Code, k: int, ef: int)
      returns (ok: bool, res: seq<DistNode>, visited: nat,
               ghost ep: nat, ghost out: seq<DistNode>, ghost seen: set<nat>)
      requires Valid() && Fits(code)
      ensures ok <==> nodes == [] || k >= 0
      ensures nodes == [] ==> res == [] && visited == 0
      ensures nodes != [] && k >= 0 ==>
                && BeamPromise(nodes, code, 0, if ef < k then k else ef, ep, out, seen)
                && res == out[..if |out| > k then k else |out|]
                && visited >= |seen|
    {
      ok := true;
      if entry == -1 { return true, [], 0, 0, [], {}; }
      var start, evaluated;
      start, visited := Descend(nodes, m, code, entry, topLayer, 0);
      WellFormedIsNavigable(nodes, m, 0);
      var all;
      all, evaluated, seen := SearchLayer(nodes, code, start, if ef < k then k else ef, 0);
      out, ep, visited := all, start, visited + evaluated;
      if |all| > k && k < 0 { return false, [], visited, ep, out, seen; }
      res := if |all| > k then all[..k] else all;
    }
  }
}
