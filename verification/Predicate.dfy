/** The retrieval filter algebra: evaluation, compilation and thread routing
    (rrc/predicate.go). */
module Predicate {

  datatype RetrievalScope = ScopeThread | ScopeAll

  /** `Unset` is the nil predicate, `Unknown` a type the evaluator does not know. */
  datatype Predicate =
    | Unset
    | All
    | Thread(threadID: string)
    | Scope(currentThread: string, scope: RetrievalScope)
    | And(children: seq<Predicate>)
    | Or(children: seq<Predicate>)
    | Not(inner: Predicate)
    | HasMetadata(key: string, value: string)
    | ExcludeMessageIDs(messageIDs: seq<string>)
    | Unknown

  datatype Attrs = Attrs(messageID: string, threadID: string, metadata: map<string, string>)

  /** A missing metadata key reads as the empty string. */
  function MetadataOf(a: Attrs, key: string): string {
    if key == "thread_id" then a.threadID
    else if key in a.metadata then a.metadata[key] else ""
  }

  predicate Eval(p: Predicate, a: Attrs)
    decreases p
  {
    match p
    case Unset => true
    case All => true
    case Thread(threadID) => a.threadID == threadID
    case Scope(currentThread, scope) => scope == ScopeAll || a.threadID == currentThread
    case ExcludeMessageIDs(messageIDs) => a.messageID !in messageIDs
    case And(children) => forall i :: 0 <= i < |children| ==> Eval(children[i], a)
    case Or(children) => exists i :: 0 <= i < |children| && Eval(children[i], a)
    case Not(inner) => !Eval(inner, a)
    case HasMetadata(key, value) => MetadataOf(a, key) == value
    case Unknown => false
  }

  /** What each simple filter passes: a thread by its id, a scope any thread or one, and a key by its
      value, "thread_id" being the thread and a missing key the empty string. */
  lemma FilterMeans(a: Attrs, t: string, ids: seq<string>, key: string)
    ensures Eval(Unset, a) && Eval(All, a) && !Eval(Unknown, a)
    ensures Eval(Thread(t), a) <==> a.threadID == t
    ensures Eval(Scope(t, ScopeAll), a) && (Eval(Scope(t, ScopeThread), a) <==> Eval(Thread(t), a))
    ensures Eval(ExcludeMessageIDs(ids), a) <==> a.messageID !in ids
    ensures Eval(HasMetadata("thread_id", t), a) <==> Eval(Thread(t), a)
    ensures key != "thread_id" && key in a.metadata ==> (Eval(HasMetadata(key, t), a) <==> a.metadata[key] == t)
    ensures key != "thread_id" && key !in a.metadata ==> (Eval(HasMetadata(key, t), a) <==> t == "")
  {
  }

  /** Connectives are those of logic; the empty conjunction passes everything, the empty disjunction
      nothing. */
  lemma ConnectivesMean(a: Attrs, p: Predicate, ps: seq<Predicate>)
    ensures Eval(Not(p), a) <==> !Eval(p, a)
    ensures Eval(And([]), a) && (Eval(And([p] + ps), a) <==> Eval(p, a) && Eval(And(ps), a))
    ensures !Eval(Or([]), a) && (Eval(Or([p] + ps), a) <==> Eval(p, a) || Eval(Or(ps), a))
  {
    AndMeans(a, p, ps);
    OrMeans(a, p, ps);
  }

  lemma AndMeans(a: Attrs, p: Predicate, ps: seq<Predicate>)
    ensures Eval(And([p] + ps), a) <==> Eval(p, a) && Eval(And(ps), a)
  {
    var both := [p] + ps;
    if Eval(And(both), a) {
      assert Eval(both[0], a);
      forall i | 0 <= i < |ps| ensures Eval(ps[i], a) { assert Eval(both[i + 1], a); }
    } else {
      var i :| 0 <= i < |both| && !Eval(both[i], a);
      assert i > 0 ==> both[i] == ps[i - 1];
    }
  }

  lemma OrMeans(a: Attrs, p: Predicate, ps: seq<Predicate>)
    ensures Eval(Or([p] + ps), a) <==> Eval(p, a) || Eval(Or(ps), a)
  {
    var both := [p] + ps;
    if Eval(Or(both), a) {
      var i :| 0 <= i < |both| && Eval(both[i], a);
      assert i > 0 ==> both[i] == ps[i - 1];
    } else {
      assert !Eval(both[0], a);
      forall i | 0 <= i < |ps| ensures !Eval(ps[i], a) { assert !Eval(both[i + 1], a); }
    }
  }

  // ----- Compilation -----

  type Filter = Attrs -> bool

  predicate AllPass(fs: seq<Filter>, a: Attrs) {
    forall i :: 0 <= i < |fs| ==> fs[i](a)
  }

  predicate AnyPasses(fs: seq<Filter>, a: Attrs) {
    exists i :: 0 <= i < |fs| && fs[i](a)
  }

  ghost predicate Agrees(f: Filter, p: Predicate) {
    forall a {:trigger f(a)} {:trigger Eval(p, a)} :: f(a) == Eval(p, a)
  }

  method CompileAll(ps: seq<Predicate>) returns (fs: seq<Filter>)
    ensures |fs| == |ps| && forall i :: 0 <= i < |ps| ==> Agrees(fs[i], ps[i])
    decreases ps, 0
  {
    fs := [];
    for i := 0 to |ps|
      invariant |fs| == i && forall j :: 0 <= j < i ==> Agrees(fs[j], ps[j])
    {
      var f := Compile(ps[i]);
      fs := fs + [f];
    }
  }

  /** The compiled filter decides every candidate as evaluation does. */
  method Compile(p: Predicate) returns (f: Filter)
    ensures Agrees(f, p)
    decreases p, 1
  {
    match p
    case Unset => f := _ => true;
    case All => f := _ => true;
    case Thread(want) => f := (a: Attrs) => a.threadID == want;
    case Scope(want, scope) =>
      if scope == ScopeAll { f := _ => true; } else { f := (a: Attrs) => a.threadID == want; }
    case ExcludeMessageIDs(messageIDs) =>
      var excluded: set<string> := {};
      for i := 0 to |messageIDs|
        invariant excluded == set id | id in messageIDs[..i]
      {
        assert messageIDs[..i + 1] == messageIDs[..i] + [messageIDs[i]];
        excluded := excluded + {messageIDs[i]};
      }
      assert messageIDs[..|messageIDs|] == messageIDs;
      f := (a: Attrs) => a.messageID !in excluded;
    case And(children) =>
      var fs := CompileAll(children);
      f := (a: Attrs) => AllPass(fs, a);
      forall a ensures f(a) == Eval(p, a) { AllAgree(fs, children, a); }
    case Or(children) =>
      var fs := CompileAll(children);
      f := (a: Attrs) => AnyPasses(fs, a);
      forall a ensures f(a) == Eval(p, a) { AnyAgree(fs, children, a); }
    case Not(inner) =>
      var g := Compile(inner);
      f := (a: Attrs) => !g(a);
    case HasMetadata(key, value) => f := (a: Attrs) => MetadataOf(a, key) == value;
    case Unknown => f := _ => false;
  }

  lemma AllAgree(fs: seq<Filter>, ps: seq<Predicate>, a: Attrs)
    requires |fs| == |ps| && forall i :: 0 <= i < |ps| ==> Agrees(fs[i], ps[i])
    ensures AllPass(fs, a) == Eval(And(ps), a)
  {
    forall i | 0 <= i < |ps| ensures fs[i](a) == Eval(ps[i], a) { assert Agrees(fs[i], ps[i]); }
  }

  lemma AnyAgree(fs: seq<Filter>, ps: seq<Predicate>, a: Attrs)
    requires |fs| == |ps| && forall i :: 0 <= i < |ps| ==> Agrees(fs[i], ps[i])
    ensures AnyPasses(fs, a) == Eval(Or(ps), a)
  {
    forall i | 0 <= i < |ps| ensures fs[i](a) == Eval(ps[i], a) { assert Agrees(fs[i], ps[i]); }
  }

  // ----- Routing -----

  datatype Pin = Pinned(thread: string) | NotPinned

  /** The thread a predicate pins retrieval to. */
  function ThreadScopeOf(p: Predicate): Pin
    decreases p, 0
  {
    match p
    case Thread(threadID) => Pinned(threadID)
    case Scope(currentThread, scope) => if scope == ScopeThread then Pinned(currentThread) else NotPinned
    case And(children) => FirstPin(p, 0)
    case _ => NotPinned
  }

  /** The first child, from the `i`-th on, that pins a thread. */
  function FirstPin(p: Predicate, i: nat): Pin
    requires p.And? && i <= |p.children|
    decreases p, 0, |p.children| - i
  {
    if i == |p.children| then NotPinned
    else
      var pin := ThreadScopeOf(p.children[i]);
      if pin.Pinned? then pin else FirstPin(p, i + 1)
  }

  /** A pinned predicate matches nothing outside its thread. */
  lemma {:induction false} PinIsSound(p: Predicate, a: Attrs)
    requires ThreadScopeOf(p).Pinned? && Eval(p, a)
    ensures a.threadID == ThreadScopeOf(p).thread
    decreases p, 0
  {
    if p.And? { FirstPinIsSound(p, 0, a); }
  }

  lemma {:induction false} FirstPinIsSound(p: Predicate, i: nat, a: Attrs)
    requires p.And? && i <= |p.children| && FirstPin(p, i).Pinned? && Eval(p, a)
    ensures a.threadID == FirstPin(p, i).thread
    decreases p, 0, |p.children| - i
  {
    if ThreadScopeOf(p.children[i]).Pinned? {
      PinIsSound(p.children[i], a);
    } else {
      FirstPinIsSound(p, i + 1, a);
    }
  }
}
