/** Closures partition the corpus: two successful closures of indexed roots are equal or
    disjoint (rrc/protocol.go, rrc/assembly.go). */
module Components {
  import opened Messages
  import opened Protocol
  import opened Closure
  import opened Sorting
  import Ids

  lemma LinkedIsIndexed(idx: Index, corpus: seq<Message>, m: Message, x: Message)
    requires IndexOf(idx, corpus) && Linked(idx, m, x)
    ensures x in corpus
  {
  }

  /** An unambiguous key leads back to the one message that calls under it. */
  lemma SoleCall(idx: Index, corpus: seq<Message>, m: Message, k: Key)
    requires IndexOf(idx, corpus) && UniqueIds(corpus) && m in corpus
    requires Calls(m, k) && k !in idx.ambiguousCalls
    ensures k in idx.callByKey && idx.callByKey[k] == m
  {
    assert idx.callByKey[k] in corpus && Calls(idx.callByKey[k], k);
  }

  lemma SoleAnswer(idx: Index, corpus: seq<Message>, m: Message, k: Key)
    requires IndexOf(idx, corpus) && UniqueIds(corpus) && m in corpus
    requires Answers(m, k) && k !in idx.ambiguousResults
    ensures k in idx.resultByKey && idx.resultByKey[k] == m
  {
    assert idx.resultByKey[k] in corpus && Answers(idx.resultByKey[k], k);
  }

  lemma FoundAnswers(idx: Index, corpus: seq<Message>, m: Message, b: Block)
    requires IndexOf(idx, corpus) && Counterpart(idx, m, b).Found?
    ensures b.ToolCall? ==> Answers(Counterpart(idx, m, b).message, Key(m.thread, b.id))
    ensures b.ToolResult? ==> Calls(Counterpart(idx, m, b).message, Key(m.thread, b.callID))
    ensures b.ToolCall? || b.ToolResult?
  {
  }

  /** Counterparts point back at each other. */
  lemma LinkedIsSymmetric(idx: Index, corpus: seq<Message>, m: Message, x: Message)
    requires IndexOf(idx, corpus) && UniqueIds(corpus) && m in corpus
    requires Linked(idx, m, x) && Whole(idx, x)
    ensures Linked(idx, x, m)
  {
    var b :| b in m.content && Counterpart(idx, m, b) == Found(x);
    FoundAnswers(idx, corpus, m, b);
    var c: Block;
    if b.ToolCall? {
      var k := Key(m.thread, b.id);
      c :| c in x.content && c.ToolResult? && c.callID == k.call;
      assert !Broken(idx, x, c);
      SoleCall(idx, corpus, m, k);
    } else {
      var k := Key(m.thread, b.callID);
      c :| c in x.content && c.ToolCall? && c.id == k.call;
      assert !Broken(idx, x, c);
      SoleAnswer(idx, corpus, m, k);
    }
    assert Counterpart(idx, x, c) == Found(m);
  }

  lemma NeededIsIndexed(idx: Index, corpus: seq<Message>, root: Message, m: Message)
    requires IndexOf(idx, corpus) && root in corpus && Needs(idx, root, m)
    ensures m in corpus
  {
    var p :| Path(idx, p) && p[0] == root && p[|p| - 1] == m;
    if |p| > 1 {
      assert Linked(idx, p[|p| - 2], p[|p| - 1]);
      LinkedIsIndexed(idx, corpus, p[|p| - 2], m);
    }
  }

  lemma ClosureIsIndexed(idx: Index, corpus: seq<Message>, root: Message, messages: seq<Message>, m: Message)
    requires IndexOf(idx, corpus) && root in corpus && ClosureOf(idx, root, messages) && m in messages
    ensures m in corpus
  {
    NeededIsIndexed(idx, corpus, root, m);
  }

  /** The part of one closure outside another is closed as well. */
  lemma DifferenceIsClosed(idx: Index, corpus: seq<Message>, r: Message, a: seq<Message>, r': Message, b: seq<Message>)
    requires IndexOf(idx, corpus) && UniqueIds(corpus) && r in corpus && r' in corpus
    requires ClosureOf(idx, r, a) && ClosureOf(idx, r', b)
    ensures ClosedSet(idx, Held(a) - Held(b))
  {
    forall m | m in Held(a) - Held(b)
      ensures Whole(idx, m) && forall x :: Linked(idx, m, x) ==> x in Held(a) - Held(b)
    {
      assert m in Held(a);
      forall x | Linked(idx, m, x) ensures x in Held(a) - Held(b) {
        if x in Held(b) {
          ClosureIsIndexed(idx, corpus, r, a, m);
          LinkedIsSymmetric(idx, corpus, m, x);
        }
      }
    }
  }

  lemma SharedMeansContained(idx: Index, corpus: seq<Message>, r: Message, a: seq<Message>, r': Message,
                             b: seq<Message>, x: Message)
    requires IndexOf(idx, corpus) && UniqueIds(corpus) && r in corpus && r' in corpus
    requires ClosureOf(idx, r, a) && ClosureOf(idx, r', b)
    requires x in a && x in b
    ensures forall m :: m in a ==> m in b
  {
    NeedsItself(idx, r);
    DifferenceIsClosed(idx, corpus, r, a, r', b);
    if r !in b {
      ClosureIsLeast(idx, r, a, Held(a) - Held(b));
      assert false;
    }
    ClosureIsLeast(idx, r, a, Held(b));
  }

  lemma SameSetSameOrder(corpus: seq<Message>, a: seq<Message>, b: seq<Message>)
    requires UniquePositions(corpus) && forall m :: m in a ==> m in corpus
    requires SortedBy(NotLater, a) && SortedBy(NotLater, b) && Distinct(a) && Distinct(b)
    requires forall m :: m in a <==> m in b
    ensures a == b
  {
    forall x, y | x in a && y in a && NotLater(x, y) && NotLater(y, x) ensures x == y {
      if x.thread != y.thread { Ids.LessAsymmetric(x.thread, y.thread); }
    }
    SortedIsUnique(NotLater, a, b);
  }

  /** Two successful closures of indexed roots are the same delivery group or share nothing. */
  lemma EqualOrDisjoint(idx: Index, corpus: seq<Message>, r: Message, a: seq<Message>, r': Message, b: seq<Message>)
    requires IndexOf(idx, corpus) && UniqueIds(corpus) && UniquePositions(corpus) && r in corpus && r' in corpus
    requires ClosureOf(idx, r, a) && ClosureOf(idx, r', b)
    ensures a == b || forall m :: m in a ==> m !in b
  {
    if x :| x in a && x in b {
      SharedMeansContained(idx, corpus, r, a, r', b, x);
      SharedMeansContained(idx, corpus, r', b, r, a, x);
      forall m | m in a ensures m in corpus { ClosureIsIndexed(idx, corpus, r, a, m); }
      SameSetSameOrder(corpus, a, b);
    }
  }

  /** A closure is determined by its root. */
  lemma ClosureIsUnique(idx: Index, corpus: seq<Message>, root: Message, a: seq<Message>, b: seq<Message>)
    requires IndexOf(idx, corpus) && UniquePositions(corpus) && root in corpus
    requires ClosureOf(idx, root, a) && ClosureOf(idx, root, b)
    ensures a == b
  {
    forall m | m in a ensures m in corpus { ClosureIsIndexed(idx, corpus, root, a, m); }
    SameSetSameOrder(corpus, a, b);
  }

  lemma NeededIsUnique(idx: Index, corpus: seq<Message>, root: Message)
    requires IndexOf(idx, corpus) && UniqueIds(corpus) && root in corpus
    ensures OneNeededPerId(idx, root)
  {
    forall m | Needs(idx, root, m) ensures m in corpus { NeededIsIndexed(idx, corpus, root, m); }
  }

  /** Every call in `ms` is answered in `ms` by a message of the same thread, and every answer
      has its call. */
  ghost predicate ProtocolClosed(ms: seq<Message>) {
    && (forall m, b :: m in ms && b in m.content && b.ToolCall? ==>
        exists x :: x in ms && Answers(x, Key(m.thread, b.id)))
    && (forall m, b :: m in ms && b in m.content && b.ToolResult? ==>
        exists x :: x in ms && Calls(x, Key(m.thread, b.callID)))
  }

  lemma ClosureIsProtocolClosed(idx: Index, corpus: seq<Message>, root: Message, messages: seq<Message>)
    requires IndexOf(idx, corpus) && ClosureOf(idx, root, messages)
    ensures ProtocolClosed(messages)
  {
    forall m, b | m in messages && b in m.content && b.ToolCall?
      ensures exists x :: x in messages && Answers(x, Key(m.thread, b.id))
    {
      assert m in Held(messages) && !Broken(idx, m, b);
      var x := Counterpart(idx, m, b).message;
      assert Linked(idx, m, x) && x in Held(messages);
    }
    forall m, b | m in messages && b in m.content && b.ToolResult?
      ensures exists x :: x in messages && Calls(x, Key(m.thread, b.callID))
    {
      assert m in Held(messages) && !Broken(idx, m, b);
      var x := Counterpart(idx, m, b).message;
      assert Linked(idx, m, x) && x in Held(messages);
    }
  }
}
