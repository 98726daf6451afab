/** The prerequisite graph: two adjacency indexes over one stream of edges (rrc/dag.go). */
module Dag {

  datatype EdgeSource = Unspecified | CrossEncoder | Provenance

  datatype Scope = UnspecifiedScope | ThisThread | AllThreads

  /** `to` depends on `from`. */
  datatype Edge = Edge(
    from: string,
    to: string,
    score: real,
    crossEncoderScore: real,
    source: EdgeSource,
    fromThread: string,
    toThread: string)

  /** Every scope but "all threads" keeps both endpoints inside the prompt's thread. */
  predicate ScopeAllows(edge: Edge, thread: string, scope: Scope) {
    scope == AllThreads || (edge.fromThread == thread && edge.toThread == thread)
  }

  /** The edges of `log` that point into `id`, oldest first. */
  ghost function Into(log: seq<Edge>, id: string): (es: seq<Edge>)
  {
    if log == [] then []
    else
      var last := log[|log| - 1];
      Into(log[..|log| - 1], id) + (if last.to == id then [last] else [])
  }

  /** The edges of `log` that leave `id`, oldest first. */
  ghost function OutOf(log: seq<Edge>, id: string): (es: seq<Edge>)
  {
    if log == [] then []
    else
      var last := log[|log| - 1];
      OutOf(log[..|log| - 1], id) + (if last.from == id then [last] else [])
  }

  function Lookup(index: map<string, seq<Edge>>, id: string): seq<Edge> {
    if id in index then index[id] else []
  }

  class Dag {
    var backward: map<string, seq<Edge>>
    var forward: map<string, seq<Edge>>
    /** Every edge ever added, oldest first. */
    ghost var log: seq<Edge>

    /** Both indexes are views of the same edge stream. */
    ghost predicate Valid()
      reads this
    {
      && (forall id :: Lookup(backward, id) == Into(log, id))
      && (forall id :: Lookup(forward, id) == OutOf(log, id))
    }

    constructor ()
      ensures Valid() && log == [] && backward == map[] && forward == map[]
    {
      backward, forward, log := map[], map[], [];
    }

    method AddEdge(edge: Edge)
      requires Valid()
      modifies this
      ensures Valid() && log == old(log) + [edge]
    {
      backward := backward[edge.to := Lookup(backward, edge.to) + [edge]];
      forward := forward[edge.from := Lookup(forward, edge.from) + [edge]];
      log := log + [edge];
      assert log[..|log| - 1] == old(log);
    }

    function Prerequisites(id: string): (es: seq<Edge>)
      reads this
      ensures Valid() ==> es == Into(log, id)
    {
      Lookup(backward, id)
    }

    function Dependents(id: string): (es: seq<Edge>)
      reads this
      ensures Valid() ==> es == OutOf(log, id)
    {
      Lookup(forward, id)
    }
  }

  /** An edge is seen from both ends: it is a prerequisite of its target exactly when it is a
      dependent of its source. */
  lemma {:induction false} DualAdjacency(log: seq<Edge>, e: Edge)
    ensures e in Into(log, e.to) <==> e in log
    ensures e in OutOf(log, e.from) <==> e in log
  {
    if log != [] {
      DualAdjacency(log[..|log| - 1], e);
      assert log == log[..|log| - 1] + [log[|log| - 1]];
    }
  }

  /** Reordering the stream permutes each adjacency list and changes nothing else. */
  lemma {:induction false} IntoPermutation(log: seq<Edge>, id: string, e: Edge)
    ensures multiset(Into(log, id))[e] == if e.to == id then multiset(log)[e] else 0
  {
    if log != [] {
      IntoPermutation(log[..|log| - 1], id, e);
      assert log == log[..|log| - 1] + [log[|log| - 1]];
    }
  }

  lemma {:induction false} IntoIsLogged(log: seq<Edge>, id: string, e: Edge)
    requires e in Into(log, id)
    ensures e in log && e.to == id
  {
    var last, front := log[|log| - 1], log[..|log| - 1];
    assert log == front + [last];
    if e in Into(front, id) { IntoIsLogged(front, id, e); }
  }
}
