/** Transitive reduction of the selected entries' via-edges (rrc/selection.go). */
module Reduction {
  import opened Dag
  import opened Selection
  import Sorting

  type Links = map<string, set<string>>

  function Direct(links: Links, id: string): set<string> {
    if id in links then links[id] else {}
  }

  /** `s` contains everything its members link to. */
  ghost predicate ClosedUnder(links: Links, s: set<string>) {
    forall x :: x in s ==> Direct(links, x) <= s
  }

  ghost function AllLinked(links: Links): set<string> {
    set id, x | id in links && x in links[id] :: x
  }

  lemma DirectIsLinked(links: Links, id: string)
    ensures Direct(links, id) <= AllLinked(links)
  {
  }

  /** Depth-first marking: adds to `seen0` everything reachable from `node` through unseen
      messages, and nothing else. */
  method Mark(links: Links, node: string, seen0: set<string>) returns (seen: set<string>)
    requires seen0 <= AllLinked(links)
    ensures seen0 <= seen <= AllLinked(links)
    ensures Direct(links, node) <= seen
    ensures forall x :: x in seen && x !in seen0 ==> Direct(links, x) <= seen
    ensures forall s :: ClosedUnder(links, s) && seen0 <= s && Direct(links, node) <= s ==> seen <= s
    decreases |AllLinked(links) - seen0|
  {
    seen := seen0;
    DirectIsLinked(links, node);
    var todo := Direct(links, node);
    while todo != {}
      invariant todo <= Direct(links, node)
      invariant seen0 <= seen <= AllLinked(links)
      invariant Direct(links, node) - todo <= seen
      invariant forall x :: x in seen && x !in seen0 ==> Direct(links, x) <= seen
      invariant forall s :: ClosedUnder(links, s) && seen0 <= s && Direct(links, node) <= s ==> seen <= s
      decreases |todo|
    {
      var next :| next in todo;
      todo := todo - {next};
      if next !in seen {
        ghost var before := seen;
        assert AllLinked(links) - (seen + {next}) < AllLinked(links) - seen0;
        Sorting.SubsetCount(AllLinked(links) - (seen + {next}), AllLinked(links) - seen0);
        seen := Mark(links, next, seen + {next});
        forall s | ClosedUnder(links, s) && seen0 <= s && Direct(links, node) <= s ensures seen <= s {
          assert next in s && before + {next} <= s && Direct(links, next) <= s;
        }
      }
    }
  }

  /** The messages on an entry's chain that were themselves selected. */
  function ChainLinks(ids: set<string>, via: seq<Edge>): set<string> {
    set e | e in via && e.from in ids :: e.from
  }

  method BuildLinks(selected: seq<Entry>, ids: set<string>) returns (links: Links)
    requires ids == set s | s in selected :: s.id
    requires DistinctIds(selected)
    ensures links.Keys == ids
    ensures forall s :: s in selected ==> links[s.id] == ChainLinks(ids, s.via)
  {
    links := map[];
    for i := 0 to |selected|
      invariant forall id :: id in links <==> exists j :: 0 <= j < i && selected[j].id == id
      invariant forall j :: 0 <= j < i ==>
                    selected[j].id in links && links[selected[j].id] == ChainLinks(ids, selected[j].via)
    {
      links := links[selected[i].id := ChainLinks(ids, selected[i].via)];
    }
    assert links.Keys == ids by {
      forall id ensures id in links.Keys <==> id in ids {
        if id in ids { var s :| s in selected && s.id == id; }
        if id in links.Keys {
          var j :| 0 <= j < |selected| && selected[j].id == id;
          assert selected[j] in selected;
        }
      }
    }
  }

  /** Exactly what following links from `id` reaches. */
  ghost predicate Reached(links: Links, id: string, seen: set<string>) {
    && Direct(links, id) <= seen && ClosedUnder(links, seen)
    && (forall s :: ClosedUnder(links, s) && Direct(links, id) <= s ==> seen <= s)
  }

  method BuildReach(links: Links, ids: set<string>) returns (reach: Links)
    ensures reach.Keys == ids
    ensures forall id :: id in ids ==> Reached(links, id, reach[id])
  {
    reach := map[];
    var todo := ids;
    while todo != {}
      invariant todo <= ids && reach.Keys == ids - todo
      invariant forall id :: id in reach ==> Reached(links, id, reach[id])
      decreases |todo|
    {
      var id :| id in todo;
      var seen := Mark(links, id, {});
      reach := reach[id := seen];
      todo := todo - {id};
    }
  }

  /** Some other edge of the chain already leads to where `e` comes from. */
  predicate Redundant(reach: Links, via: seq<Edge>, e: Edge) {
    exists o :: o in via && o.from != e.from && e.from in Direct(reach, o.from)
  }

  function Irredundant(reach: Links, via: seq<Edge>, n: nat): seq<Edge>
    requires n <= |via|
  {
    if n == 0 then []
    else Irredundant(reach, via, n - 1) + (if Redundant(reach, via, via[n - 1]) then [] else [via[n - 1]])
  }

  method IsRedundant(reach: Links, via: seq<Edge>, e: Edge) returns (r: bool)
    ensures r == Redundant(reach, via, e)
  {
    r := false;
    for i := 0 to |via|
      invariant !r
      invariant forall j :: 0 <= j < i ==> !(via[j].from != e.from && e.from in Direct(reach, via[j].from))
    {
      if via[i].from != e.from && e.from in Direct(reach, via[i].from) {
        return true;
      }
    }
  }

  method Filter(reach: Links, via: seq<Edge>) returns (out: seq<Edge>)
    ensures out == Irredundant(reach, via, |via|)
  {
    out := [];
    for i := 0 to |via|
      invariant out == Irredundant(reach, via, i)
    {
      var r := IsRedundant(reach, via, via[i]);
      if !r { out := out + [via[i]]; }
    }
  }

  // ----- On a traversal's output -----

  /** An entry's chain is a chain of selected entries: the message after `k` hops was selected
      with exactly the first `k` edges as its chain. */
  lemma {:induction false} ChainOfSelected(w: Walk, selected: seq<Entry>, i: nat, k: nat) returns (j: nat)
    requires AllKept(w, selected) && Tree(selected) && i < |selected|
    requires 0 < k <= |selected[i].via|
    ensures j <= i && selected[j].via == selected[i].via[..k]
    decreases i
  {
    assert Kept(w, selected[i]);
    var via := selected[i].via;
    if k == |via| {
      j := i;
      assert via[..k] == via;
    } else {
      assert Rooted(selected[..i], selected[i]);
      var p :| p in selected[..i] && p.via == via[..|via| - 1];
      var m :| 0 <= m < i && selected[m] == p;
      j := ChainOfSelected(w, selected, m, k);
      assert via[..|via| - 1][..k] == via[..k];
    }
  }

  /** The messages on one entry's chain. */
  ghost function Hops(via: seq<Edge>, k: nat): set<string>
    requires k <= |via|
  {
    set i | 0 <= i < k :: via[i].from
  }

  lemma HopIsSelected(w: Walk, selected: seq<Entry>, i: nat, k: nat) returns (j: nat)
    requires AllKept(w, selected) && Tree(selected) && i < |selected| && k < |selected[i].via|
    ensures j <= i && selected[j].via == selected[i].via[..k + 1] && selected[j].id == selected[i].via[k].from
  {
    j := ChainOfSelected(w, selected, i, k + 1);
    assert Kept(w, selected[j]);
  }

  /** No message occurs twice on one chain. */
  lemma HopsDistinct(w: Walk, selected: seq<Entry>, i: nat, k: nat, m: nat)
    requires AllKept(w, selected) && Tree(selected) && DistinctIds(selected) && i < |selected|
    requires k < m < |selected[i].via|
    ensures selected[i].via[k].from != selected[i].via[m].from
  {
    var a := HopIsSelected(w, selected, i, k);
    var b := HopIsSelected(w, selected, i, m);
    assert |selected[a].via| != |selected[b].via|;
  }

  /** A selected message links to exactly the messages on its own chain. */
  lemma LinksAreHops(w: Walk, selected: seq<Entry>, ids: set<string>, i: nat)
    requires AllKept(w, selected) && Tree(selected) && i < |selected|
    requires ids == set s | s in selected :: s.id
    ensures ChainLinks(ids, selected[i].via) == Hops(selected[i].via, |selected[i].via|)
  {
    var via := selected[i].via;
    forall k | 0 <= k < |via| ensures via[k].from in ids {
      var j := HopIsSelected(w, selected, i, k);
      assert selected[j] in selected;
    }
    forall x | x in ChainLinks(ids, via) ensures x in Hops(via, |via|) {
      var e :| e in via && e.from == x;
      var k :| 0 <= k < |via| && via[k] == e;
    }
    forall x | x in Hops(via, |via|) ensures x in ChainLinks(ids, via) {
      var k :| 0 <= k < |via| && via[k].from == x;
      assert via[k] in via;
    }
  }

  /** One chain as the links see it: distinct messages, each linked to the chain up to itself. */
  ghost predicate Ladder(links: Links, via: seq<Edge>) {
    && (forall k, m :: 0 <= k < m < |via| ==> via[k].from != via[m].from)
    && (forall k {:trigger Hops(via, k + 1)} :: 0 <= k < |via| ==> Direct(links, via[k].from) == Hops(via, k + 1))
  }

  lemma HopsOfPrefix(via: seq<Edge>, k: nat)
    requires k <= |via|
    ensures Hops(via[..k], k) == Hops(via, k)
  {
    forall x | x in Hops(via, k) ensures x in Hops(via[..k], k) {
      var i :| 0 <= i < k && via[i].from == x;
      assert via[..k][i].from == x;
    }
  }

  lemma LinkAt(w: Walk, selected: seq<Entry>, ids: set<string>, links: Links, i: nat, k: nat)
    requires AllKept(w, selected) && Tree(selected) && i < |selected| && k < |selected[i].via|
    requires ids == (set s | s in selected :: s.id) && links.Keys == ids
    requires forall s :: s in selected ==> links[s.id] == ChainLinks(ids, s.via)
    ensures selected[i].via[k].from in ids
    ensures Direct(links, selected[i].via[k].from) == Hops(selected[i].via, k + 1)
  {
    var j := HopIsSelected(w, selected, i, k);
    assert selected[j] in selected;
    LinksAreHops(w, selected, ids, j);
    HopsOfPrefix(selected[i].via, k + 1);
  }

  lemma ChainIsLadder(w: Walk, selected: seq<Entry>, ids: set<string>, links: Links, i: nat)
    requires AllKept(w, selected) && Tree(selected) && DistinctIds(selected) && i < |selected|
    requires ids == (set s | s in selected :: s.id) && links.Keys == ids
    requires forall s :: s in selected ==> links[s.id] == ChainLinks(ids, s.via)
    ensures Ladder(links, selected[i].via)
    ensures forall k :: 0 <= k < |selected[i].via| ==> selected[i].via[k].from in ids
  {
    var via := selected[i].via;
    forall k, m | 0 <= k < m < |via| ensures via[k].from != via[m].from {
      HopsDistinct(w, selected, i, k, m);
    }
    forall k | 0 <= k < |via| ensures Direct(links, via[k].from) == Hops(via, k + 1) && via[k].from in ids {
      LinkAt(w, selected, ids, links, i, k);
    }
  }

  lemma PrefixIsClosed(links: Links, via: seq<Edge>, k: nat)
    requires Ladder(links, via) && k < |via|
    ensures ClosedUnder(links, Hops(via, k + 1))
  {
    forall x | x in Hops(via, k + 1) ensures Direct(links, x) <= Hops(via, k + 1) {
      var m :| 0 <= m < k + 1 && via[m].from == x;
      assert Direct(links, x) == Hops(via, m + 1);
    }
  }

  /** What a message on the chain reaches is the part of the chain up to itself. */
  lemma ReachIsPrefix(links: Links, via: seq<Edge>, k: nat, seen: set<string>)
    requires Ladder(links, via) && k < |via| && Reached(links, via[k].from, seen)
    ensures seen == Hops(via, k + 1)
  {
    PrefixIsClosed(links, via, k);
    assert Direct(links, via[k].from) == Hops(via, k + 1);
  }

  lemma {:induction false} OnlyLastSurvives(reach: Links, via: seq<Edge>, n: nat)
    requires 0 < n <= |via|
    requires forall k :: 0 <= k < |via| - 1 ==> Redundant(reach, via, via[k])
    requires !Redundant(reach, via, via[|via| - 1])
    ensures Irredundant(reach, via, n) == if n == |via| then [via[n - 1]] else []
  {
    if n > 1 { OnlyLastSurvives(reach, via, n - 1); }
  }

  /** Along a ladder the reduction keeps exactly the last edge. */
  lemma ReducesToLast(links: Links, reach: Links, via: seq<Edge>)
    requires via != [] && Ladder(links, via)
    requires forall k :: 0 <= k < |via| ==> via[k].from in reach && Reached(links, via[k].from, reach[via[k].from])
    ensures Irredundant(reach, via, |via|) == [via[|via| - 1]]
  {
    forall k | 0 <= k < |via| - 1 ensures Redundant(reach, via, via[k]) {
      EarlierIsRedundant(links, reach, via, k);
    }
    LastIsNeeded(links, reach, via);
    OnlyLastSurvives(reach, via, |via|);
  }

  lemma EarlierIsRedundant(links: Links, reach: Links, via: seq<Edge>, k: nat)
    requires Ladder(links, via) && k < |via| - 1
    requires var x := via[|via| - 1].from; x in reach && Reached(links, x, reach[x])
    ensures Redundant(reach, via, via[k])
  {
    var last := via[|via| - 1];
    ReachIsPrefix(links, via, |via| - 1, reach[last.from]);
    assert last in via && via[k].from in Direct(reach, last.from);
  }

  lemma LastIsNeeded(links: Links, reach: Links, via: seq<Edge>)
    requires via != [] && Ladder(links, via)
    requires forall k :: 0 <= k < |via| ==> via[k].from in reach && Reached(links, via[k].from, reach[via[k].from])
    ensures !Redundant(reach, via, via[|via| - 1])
  {
    var last := via[|via| - 1];
    forall o | o in via && o.from != last.from ensures last.from !in Direct(reach, o.from) {
      var k :| 0 <= k < |via| && via[k] == o;
      ReachIsPrefix(links, via, k, reach[o.from]);
    }
  }

  lemma EntryReducesToLast(w: Walk, selected: seq<Entry>, ids: set<string>, links: Links, reach: Links, i: nat)
    requires AllKept(w, selected) && Tree(selected) && DistinctIds(selected) && i < |selected|
    requires ids == (set s | s in selected :: s.id) && links.Keys == ids && reach.Keys == ids
    requires forall s :: s in selected ==> links[s.id] == ChainLinks(ids, s.via)
    requires forall id :: id in ids ==> Reached(links, id, reach[id])
    ensures Irredundant(reach, selected[i].via, |selected[i].via|) == LastEdge(selected[i].via)
  {
    EntryNamesItself(w, selected, i);
    ChainIsLadder(w, selected, ids, links, i);
    LadderReduces(links, reach, ids, selected[i].via);
  }

  lemma LadderReduces(links: Links, reach: Links, ids: set<string>, via: seq<Edge>)
    requires via != [] && Ladder(links, via) && reach.Keys == ids
    requires forall id :: id in ids ==> Reached(links, id, reach[id])
    requires forall k :: 0 <= k < |via| ==> via[k].from in ids
    ensures Irredundant(reach, via, |via|) == LastEdge(via)
  {
    ReducesToLast(links, reach, via);
  }

  function LastEdge(via: seq<Edge>): seq<Edge> {
    if via == [] then [] else [via[|via| - 1]]
  }

  lemma EntryNamesItself(w: Walk, selected: seq<Entry>, i: nat)
    requires AllKept(w, selected) && i < |selected|
    ensures selected[i].via != [] && End(selected[i].via) == selected[i].id
  {
    assert Kept(w, selected[i]);
  }

  /** Reducing a traversal's output changes nothing but the chains, and leaves each entry the
      single edge that names it. */
  method TransitiveReduction(ghost w: Walk, selected: seq<Entry>) returns (out: seq<Entry>)
    requires AllKept(w, selected) && Tree(selected) && DistinctIds(selected)
    ensures |out| == |selected|
    ensures forall i :: 0 <= i < |out| ==> out[i] == selected[i].(via := LastEdge(selected[i].via))
    ensures forall i :: 0 <= i < |out| ==> |out[i].via| == 1 && out[i].via[0].from == out[i].id
  {
    if |selected| <= 1 {
      if |selected| == 1 { LoneEntryIsDirect(w, selected); EntryNamesItself(w, selected, 0); }
      return selected;
    }
    out := Reduce(w, selected);
    forall i | 0 <= i < |out| ensures |out[i].via| == 1 && out[i].via[0].from == out[i].id {
      EntryNamesItself(w, selected, i);
    }
  }

  method Reduce(ghost w: Walk, selected: seq<Entry>) returns (out: seq<Entry>)
    requires AllKept(w, selected) && Tree(selected) && DistinctIds(selected)
    ensures |out| == |selected|
    ensures forall i :: 0 <= i < |out| ==> out[i] == selected[i].(via := LastEdge(selected[i].via))
  {
    var ids := set s | s in selected :: s.id;
    var links := BuildLinks(selected, ids);
    var reach := BuildReach(links, ids);
    forall i | 0 <= i < |selected|
      ensures Irredundant(reach, selected[i].via, |selected[i].via|) == LastEdge(selected[i].via)
    {
      EntryReducesToLast(w, selected, ids, links, reach, i);
    }
    out := FilterAll(reach, selected);
  }

  method FilterAll(reach: Links, selected: seq<Entry>) returns (out: seq<Entry>)
    ensures |out| == |selected|
    ensures forall i :: 0 <= i < |out| ==>
              out[i] == selected[i].(via := Irredundant(reach, selected[i].via, |selected[i].via|))
  {
    out := selected;
    for i := 0 to |selected|
      invariant |out| == |selected| && out[i..] == selected[i..]
      invariant forall j :: 0 <= j < i ==>
                  out[j] == selected[j].(via := Irredundant(reach, selected[j].via, |selected[j].via|))
    {
      assert out[i] == out[i..][0] == selected[i];
      var kept := Filter(reach, out[i].via);
      out := out[i := out[i].(via := kept)];
    }
  }

  lemma LoneEntryIsDirect(w: Walk, selected: seq<Entry>)
    requires |selected| == 1 && AllKept(w, selected) && Tree(selected)
    ensures |selected[0].via| == 1
  {
    assert Kept(w, selected[0]);
    assert Rooted(selected[..0], selected[0]);
  }
}
