/** Merging delivery groups and flattening them onto the wire (rrc/assembly.go). */
module Delivery {
  import opened Messages
  import opened Closure
  import opened Sorting
  import Ids

  // ----- Merging groups with the same closure -----

  /** `o` after a second root with the same closure: the better score names the group. */
  function Joined(o: DeliveryGroup, g: DeliveryGroup): DeliveryGroup {
    if g.score > o.score
    then o.(rootIDs := o.rootIDs + g.rootIDs, rootID := g.rootID, score := g.score)
    else o.(rootIDs := o.rootIDs + g.rootIDs)
  }

  ghost function Absorb(out: seq<DeliveryGroup>, g: DeliveryGroup): seq<DeliveryGroup> {
    if out == [] then [g]
    else if out[0].messages == g.messages then [Joined(out[0], g)] + out[1..]
    else [out[0]] + Absorb(out[1..], g)
  }

  /** One group per distinct closure, in order of first appearance. */
  ghost function Merge(gs: seq<DeliveryGroup>): seq<DeliveryGroup> {
    if gs == [] then [] else Absorb(Merge(gs[..|gs| - 1]), gs[|gs| - 1])
  }

  ghost predicate DistinctClosures(gs: seq<DeliveryGroup>) {
    forall i, j :: 0 <= i < j < |gs| ==> gs[i].messages != gs[j].messages
  }

  ghost predicate HasClosure(gs: seq<DeliveryGroup>, ms: seq<Message>) {
    exists i :: 0 <= i < |gs| && gs[i].messages == ms
  }

  lemma {:induction false} AbsorbAt(out: seq<DeliveryGroup>, g: DeliveryGroup, i: nat)
    requires DistinctClosures(out) && i < |out| && out[i].messages == g.messages
    ensures Absorb(out, g) == out[i := Joined(out[i], g)]
  {
    if i > 0 {
      assert out[0].messages != out[i].messages;
      AbsorbAt(out[1..], g, i - 1);
    }
  }

  lemma {:induction false} AbsorbNew(out: seq<DeliveryGroup>, g: DeliveryGroup)
    requires !HasClosure(out, g.messages)
    ensures Absorb(out, g) == out + [g]
  {
    if out != [] {
      assert out[0].messages != g.messages;
      assert !HasClosure(out[1..], g.messages) by {
        forall i | 0 <= i < |out[1..]| ensures out[1..][i].messages != g.messages { assert out[1..][i] == out[i + 1]; }
      }
      AbsorbNew(out[1..], g);
    }
  }

  lemma AbsorbKeepsDistinct(out: seq<DeliveryGroup>, g: DeliveryGroup)
    requires DistinctClosures(out)
    ensures DistinctClosures(Absorb(out, g))
    ensures forall ms :: HasClosure(Absorb(out, g), ms) <==> HasClosure(out, ms) || ms == g.messages
  {
    if i :| 0 <= i < |out| && out[i].messages == g.messages {
      AbsorbAt(out, g, i);
      var out' := out[i := Joined(out[i], g)];
      forall j | 0 <= j < |out| ensures out'[j].messages == out[j].messages { }
      forall ms ensures HasClosure(out', ms) <==> HasClosure(out, ms) || ms == g.messages {
        if j :| 0 <= j < |out| && out[j].messages == ms { assert out'[j].messages == ms; }
        if j :| 0 <= j < |out'| && out'[j].messages == ms { assert out[j].messages == ms; }
        assert out'[i].messages == g.messages;
      }
    } else {
      AbsorbNew(out, g);
      var out' := out + [g];
      forall ms ensures HasClosure(out', ms) <==> HasClosure(out, ms) || ms == g.messages {
        if j :| 0 <= j < |out| && out[j].messages == ms { assert out'[j].messages == ms; }
        if j :| 0 <= j < |out'| && out'[j].messages == ms && ms != g.messages { assert out[j].messages == ms; }
        assert out'[|out|].messages == g.messages;
      }
    }
  }

  /** Merged groups have pairwise different closures, and no closure is lost or invented. */
  lemma {:induction false} MergeIsExact(gs: seq<DeliveryGroup>)
    ensures DistinctClosures(Merge(gs))
    ensures forall ms :: HasClosure(Merge(gs), ms) <==> HasClosure(gs, ms)
  {
    if gs != [] {
      var front, g := gs[..|gs| - 1], gs[|gs| - 1];
      MergeIsExact(front);
      AbsorbKeepsDistinct(Merge(front), g);
      forall ms ensures HasClosure(gs, ms) <==> HasClosure(front, ms) || ms == g.messages {
        if j :| 0 <= j < |front| && front[j].messages == ms { assert gs[j].messages == ms; }
        if j :| 0 <= j < |gs| && gs[j].messages == ms && ms != g.messages { assert front[j].messages == ms; }
        assert gs[|gs| - 1].messages == g.messages;
      }
    }
  }

  // ----- What a merged group carries -----

  /** All roots whose closure is `ms`, in order. */
  ghost function RootsOf(gs: seq<DeliveryGroup>, ms: seq<Message>): seq<string> {
    if gs == [] then []
    else RootsOf(gs[..|gs| - 1], ms) + (if gs[|gs| - 1].messages == ms then gs[|gs| - 1].rootIDs else [])
  }

  /** `o` collects every root of its closure and is named by the first of its best-scored ones. */
  ghost predicate Collects(gs: seq<DeliveryGroup>, o: DeliveryGroup) {
    && o.rootIDs == RootsOf(gs, o.messages)
    && (exists i: nat :: NamedBy(gs, o, i))
    && (forall g :: g in gs && g.messages == o.messages ==> g.score <= o.score)
  }

  /** The group at place `i` names `o`: it has `o`'s closure and score, which none before it has. */
  ghost predicate NamedBy(gs: seq<DeliveryGroup>, o: DeliveryGroup, i: nat) {
    && i < |gs| && gs[i].messages == o.messages && gs[i].rootID == o.rootID && gs[i].score == o.score
    && (forall j :: 0 <= j < i && gs[j].messages == o.messages ==> gs[j].score < o.score)
  }

  lemma {:induction false} RootsOfNone(gs: seq<DeliveryGroup>, ms: seq<Message>)
    requires !HasClosure(gs, ms)
    ensures RootsOf(gs, ms) == []
  {
    if gs != [] {
      assert gs[|gs| - 1].messages != ms;
      var front := gs[..|gs| - 1];
      assert !HasClosure(front, ms) by {
        forall i | 0 <= i < |front| ensures front[i].messages != ms { assert front[i] == gs[i]; }
      }
      RootsOfNone(gs[..|gs| - 1], ms);
    }
  }

  lemma CollectsMore(gs: seq<DeliveryGroup>, g: DeliveryGroup, o: DeliveryGroup)
    requires Collects(gs, o)
    ensures Collects(gs + [g], if o.messages == g.messages then Joined(o, g) else o)
  {
    var gs', o' := gs + [g], if o.messages == g.messages then Joined(o, g) else o;
    assert gs'[..|gs|] == gs && gs'[|gs|] == g;
    var i: nat :| NamedBy(gs, o, i);
    if o.messages == g.messages && g.score > o.score {
      forall j | 0 <= j < |gs| && gs[j].messages == o.messages ensures gs[j].score < g.score { assert gs[j] in gs; }
      assert NamedBy(gs', o', |gs|);
    } else {
      assert NamedBy(gs', o', i);
    }
    assert g in gs';
  }

  lemma CollectsFirst(front: seq<DeliveryGroup>, g: DeliveryGroup)
    requires !HasClosure(front, g.messages)
    ensures Collects(front + [g], g)
  {
    var gs := front + [g];
    RootsOfNone(front, g.messages);
    assert gs[..|front|] == front && [] + g.rootIDs == g.rootIDs;
    assert forall x :: x in front ==> x.messages != g.messages;
    assert NamedBy(gs, g, |front|);
  }

  lemma {:induction false} MergeCollects(gs: seq<DeliveryGroup>, o: DeliveryGroup)
    requires o in Merge(gs)
    ensures Collects(gs, o)
  {
    var front, g := gs[..|gs| - 1], gs[|gs| - 1];
    assert gs == front + [g];
    var out := Merge(front);
    MergeIsExact(front);
    if i :| 0 <= i < |out| && out[i].messages == g.messages {
      AbsorbAt(out, g, i);
      var j :| 0 <= j < |out| && o == out[i := Joined(out[i], g)][j];
      MergeCollects(front, out[j]);
      CollectsMore(front, g, out[j]);
    } else {
      AbsorbNew(out, g);
      if o in out {
        MergeCollects(front, o);
        assert o.messages != g.messages by { var j :| 0 <= j < |out| && out[j] == o; }
        CollectsMore(front, g, o);
      } else {
        assert o == g && !HasClosure(front, g.messages);
        CollectsFirst(front, g);
      }
    }
  }

  // ----- Removing a group's roots removes the group -----

  ghost function Without(gs: seq<DeliveryGroup>, ms: seq<Message>): seq<DeliveryGroup> {
    if gs == [] then []
    else if gs[0].messages == ms then Without(gs[1..], ms)
    else [gs[0]] + Without(gs[1..], ms)
  }

  lemma {:induction false} WithoutAppends(a: seq<DeliveryGroup>, b: seq<DeliveryGroup>, ms: seq<Message>)
    ensures Without(a + b, ms) == Without(a, ms) + Without(b, ms)
  {
    if a == [] {
      assert a + b == b;
    } else {
      WithoutAppends(a[1..], b, ms);
      assert (a + b)[0] == a[0] && (a + b)[1..] == a[1..] + b;
      assert [a[0]] + (Without(a[1..], ms) + Without(b, ms)) == ([a[0]] + Without(a[1..], ms)) + Without(b, ms);
    }
  }

  lemma {:induction false} WithoutAbsorbed(out: seq<DeliveryGroup>, g: DeliveryGroup, ms: seq<Message>)
    ensures Without(Absorb(out, g), ms) == if g.messages == ms then Without(out, ms) else Absorb(Without(out, ms), g)
  {
    if out == [] {
      assert [g][1..] == [];
    } else if out[0].messages == g.messages {
      var r := [Joined(out[0], g)] + out[1..];
      assert r[0].messages == g.messages && r[1..] == out[1..];
      if g.messages != ms {
        var k := [out[0]] + Without(out[1..], ms);
        assert Without(out, ms) == k && k[0] == out[0] && k[1..] == Without(out[1..], ms);
      }
    } else {
      WithoutAbsorbed(out[1..], g, ms);
      var r := [out[0]] + Absorb(out[1..], g);
      assert r[1..] == Absorb(out[1..], g);
      if out[0].messages != ms {
        var k := [out[0]] + Without(out[1..], ms);
        assert k[0] == out[0] && k[1..] == Without(out[1..], ms);
      }
    }
  }

  /** Merging commutes with removing every root of one closure. */
  lemma {:induction false} MergeWithout(gs: seq<DeliveryGroup>, ms: seq<Message>)
    ensures Merge(Without(gs, ms)) == Without(Merge(gs), ms)
  {
    if gs != [] {
      var front, g := gs[..|gs| - 1], gs[|gs| - 1];
      assert gs == front + [g];
      MergeWithout(front, ms);
      WithoutAppends(front, [g], ms);
      WithoutAbsorbed(Merge(front), g, ms);
      assert [g][1..] == [];
      if g.messages != ms {
        var kept := Without(front, ms) + [g];
        assert Without(gs, ms) == kept && kept[..|kept| - 1] == Without(front, ms);
      } else {
        assert Without(gs, ms) == Without(front, ms) + [];
        assert Without(front, ms) + [] == Without(front, ms);
      }
    }
  }

  lemma {:induction false} WithoutAbsent(gs: seq<DeliveryGroup>, ms: seq<Message>)
    requires forall i :: 0 <= i < |gs| ==> gs[i].messages != ms
    ensures Without(gs, ms) == gs
  {
    if gs != [] { WithoutAbsent(gs[1..], ms); }
  }

  lemma {:induction false} WithoutIsOneLess(gs: seq<DeliveryGroup>, i: nat)
    requires DistinctClosures(gs) && i < |gs|
    ensures Without(gs, gs[i].messages) == gs[..i] + gs[i + 1..]
  {
    if i == 0 {
      WithoutAbsent(gs[1..], gs[0].messages);
    } else {
      assert gs[0].messages != gs[i].messages;
      WithoutIsOneLess(gs[1..], i - 1);
      assert gs[..i] + gs[i + 1..] == [gs[0]] + (gs[1..][..i - 1] + gs[1..][i..]);
    }
  }

  // ----- The merging loop -----

  /** The text key of a closure, read as its list of (thread, id) pairs. */
  function ClosureKey(ms: seq<Message>): (k: seq<(string, string)>)
    ensures |k| == |ms| && forall i :: 0 <= i < |ms| ==> k[i] == (ms[i].thread, ms[i].id)
  {
    seq(|ms|, i requires 0 <= i < |ms| => (ms[i].thread, ms[i].id))
  }

  /** One message per id across all groups. */
  ghost predicate OneMessagePerId(gs: seq<DeliveryGroup>) {
    forall g, h, a, b :: g in gs && h in gs && a in g.messages && b in h.messages && a.id == b.id ==> a == b
  }

  /** The key of a closure names it. */
  ghost predicate KeysName(gs: seq<DeliveryGroup>) {
    forall g, h :: g in gs && h in gs && ClosureKey(g.messages) == ClosureKey(h.messages) ==> g.messages == h.messages
  }

  lemma OneMessageKeysName(gs: seq<DeliveryGroup>)
    requires OneMessagePerId(gs)
    ensures KeysName(gs)
  {
    forall g, h | g in gs && h in gs && ClosureKey(g.messages) == ClosureKey(h.messages)
      ensures g.messages == h.messages
    {
      var k, l := ClosureKey(g.messages), ClosureKey(h.messages);
      assert |g.messages| == |h.messages|;
      forall i | 0 <= i < |g.messages| ensures g.messages[i] == h.messages[i] {
        assert k[i] == l[i];
        assert g.messages[i] in g.messages && h.messages[i] in h.messages;
      }
    }
  }

  ghost function AbsorbKeyed(out: seq<DeliveryGroup>, g: DeliveryGroup): seq<DeliveryGroup> {
    if out == [] then [g]
    else if ClosureKey(out[0].messages) == ClosureKey(g.messages) then [Joined(out[0], g)] + out[1..]
    else [out[0]] + AbsorbKeyed(out[1..], g)
  }

  /** One group per distinct closure key, in order of first appearance. */
  ghost function MergeKeyed(gs: seq<DeliveryGroup>): seq<DeliveryGroup> {
    if gs == [] then [] else AbsorbKeyed(MergeKeyed(gs[..|gs| - 1]), gs[|gs| - 1])
  }

  ghost predicate KeyAt(out: seq<DeliveryGroup>, g: DeliveryGroup, i: nat) {
    i < |out| && ClosureKey(out[i].messages) == ClosureKey(g.messages)
  }

  /** The group joins the first one of its key, or comes last. */
  lemma {:induction false} AbsorbKeyedIs(out: seq<DeliveryGroup>, g: DeliveryGroup, i: nat)
    requires KeyAt(out, g, i) || i == |out|
    requires forall j: nat {:trigger KeyAt(out, g, j)} :: j < i ==> !KeyAt(out, g, j)
    ensures AbsorbKeyed(out, g) == if i < |out| then out[i := Joined(out[i], g)] else out + [g]
  {
    if i > 0 {
      assert !KeyAt(out, g, 0);
      forall j: nat {:trigger KeyAt(out[1..], g, j)} | j < i - 1 ensures !KeyAt(out[1..], g, j) {
        assert !KeyAt(out, g, j + 1);
      }
      AbsorbKeyedIs(out[1..], g, i - 1);
    }
  }

  lemma {:induction false} AbsorbAgrees(out: seq<DeliveryGroup>, g: DeliveryGroup)
    requires forall o :: o in out && ClosureKey(o.messages) == ClosureKey(g.messages) ==> o.messages == g.messages
    ensures AbsorbKeyed(out, g) == Absorb(out, g)
  {
    if out != [] {
      assert out[0] in out;
      if ClosureKey(out[0].messages) != ClosureKey(g.messages) { AbsorbAgrees(out[1..], g); }
    }
  }

  lemma {:induction false} NamedKeysMerge(gs: seq<DeliveryGroup>)
    requires KeysName(gs)
    ensures MergeKeyed(gs) == Merge(gs)
  {
    if gs != [] {
      var front, g := gs[..|gs| - 1], gs[|gs| - 1];
      NamedKeysMerge(front);
      forall o | o in Merge(front) && ClosureKey(o.messages) == ClosureKey(g.messages)
        ensures o.messages == g.messages
      {
        var h := MergedIsInput(front, o);
        assert h in gs && g in gs;
      }
      AbsorbAgrees(Merge(front), g);
    }
  }

  ghost predicate DistinctKeys(gs: seq<DeliveryGroup>) {
    forall i, j :: 0 <= i < j < |gs| ==> ClosureKey(gs[i].messages) != ClosureKey(gs[j].messages)
  }

  /** Merging by key merges by closure exactly when keys name closures. */
  lemma KeyedExactly(gs: seq<DeliveryGroup>)
    requires DistinctKeys(MergeKeyed(gs))
    ensures MergeKeyed(gs) == Merge(gs) <==> KeysName(gs)
  {
    if KeysName(gs) { NamedKeysMerge(gs); }
    if MergeKeyed(gs) == Merge(gs) {
      MergeIsExact(gs);
      forall g, h | g in gs && h in gs && ClosureKey(g.messages) == ClosureKey(h.messages)
        ensures g.messages == h.messages
      {
        assert HasClosure(gs, g.messages) && HasClosure(gs, h.messages);
        var i :| 0 <= i < |Merge(gs)| && Merge(gs)[i].messages == g.messages;
        var j :| 0 <= j < |Merge(gs)| && Merge(gs)[j].messages == h.messages;
        assert i == j;
      }
    }
  }

  /** `byKey` maps the key of each merged closure to its place. */
  ghost predicate Placed(out: seq<DeliveryGroup>, byKey: map<seq<(string, string)>, nat>) {
    && (forall i :: 0 <= i < |out| ==> ClosureKey(out[i].messages) in byKey && byKey[ClosureKey(out[i].messages)] == i)
    && (forall k :: k in byKey ==> byKey[k] < |out| && ClosureKey(out[byKey[k]].messages) == k)
  }

  ghost function Sealed(gs: seq<DeliveryGroup>): (r: seq<DeliveryGroup>)
    ensures |r| == |gs|
    ensures forall i :: 0 <= i < |gs| ==> r[i] == gs[i].(rootIDs := Ids.Sort(gs[i].rootIDs))
  {
    seq(|gs|, i requires 0 <= i < |gs| => gs[i].(rootIDs := Ids.Sort(gs[i].rootIDs)))
  }

  lemma MergedIsInput(gs: seq<DeliveryGroup>, o: DeliveryGroup) returns (g: DeliveryGroup)
    requires o in Merge(gs)
    ensures g in gs && g.messages == o.messages
  {
    MergeCollects(gs, o);
    var i: nat :| NamedBy(gs, o, i);
    g := gs[i];
  }

  method MergeStep(out0: seq<DeliveryGroup>, byKey0: map<seq<(string, string)>, nat>, ghost done: seq<DeliveryGroup>,
                   g: DeliveryGroup)
    returns (out: seq<DeliveryGroup>, byKey: map<seq<(string, string)>, nat>)
    requires out0 == MergeKeyed(done) && Placed(out0, byKey0)
    ensures out == MergeKeyed(done + [g]) && Placed(out, byKey)
  {
    var key := ClosureKey(g.messages);
    assert (done + [g])[..|done|] == done;
    if key in byKey0 {
      var i := byKey0[key];
      assert KeyAt(out0, g, i);
      AbsorbKeyedIs(out0, g, i);
      out, byKey := out0[i := Joined(out0[i], g)], byKey0;
    } else {
      AbsorbKeyedIs(out0, g, |out0|);
      out, byKey := out0 + [g], byKey0[key := |out0|];
    }
  }

  /** Groups are merged by the key of their closure. */
  method MergeDeliveryGroups(gs: seq<DeliveryGroup>) returns (out: seq<DeliveryGroup>)
    ensures out == Sealed(MergeKeyed(gs)) && DistinctKeys(MergeKeyed(gs))
    ensures MergeKeyed(gs) == Merge(gs) <==> KeysName(gs)
    ensures OneMessagePerId(gs) ==> KeysName(gs)
  {
    var byKey: map<seq<(string, string)>, nat> := map[];
    out := [];
    for i := 0 to |gs|
      invariant out == MergeKeyed(gs[..i]) && Placed(out, byKey)
    {
      assert gs[..i + 1] == gs[..i] + [gs[i]];
      out, byKey := MergeStep(out, byKey, gs[..i], gs[i]);
    }
    assert gs[..|gs|] == gs;
    KeyedExactly(gs);
    if OneMessagePerId(gs) { OneMessageKeysName(gs); }
    out := Seal(out);
  }

  method Seal(merged: seq<DeliveryGroup>) returns (out: seq<DeliveryGroup>)
    ensures out == Sealed(merged)
  {
    out := merged;
    for i := 0 to |out|
      invariant |out| == |merged|
      invariant forall j :: i <= j < |out| ==> out[j] == merged[j]
      invariant forall j :: 0 <= j < i ==> out[j] == merged[j].(rootIDs := Ids.Sort(merged[j].rootIDs))
    {
      out := out[i := out[i].(rootIDs := Ids.Sort(out[i].rootIDs))];
    }
  }
}
