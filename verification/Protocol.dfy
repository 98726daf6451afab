/** Tool-call protocol structure: the counterpart index and exact transitive closure of a
    delivery root (rrc/protocol.go). */
module Protocol {
  import opened Messages

  /** A tool call is identified by its thread and its original call id. */
  datatype Key = Key(thread: string, call: string)

  datatype Index = Index(
    callByKey: map<Key, Message>,
    resultByKey: map<Key, Message>,
    ambiguousCalls: set<Key>,
    ambiguousResults: set<Key>)

  predicate CallsIn(content: seq<Block>, call: string) {
    call != "" && exists b :: b in content && b.ToolCall? && b.id == call
  }

  predicate AnswersIn(content: seq<Block>, call: string) {
    call != "" && exists b :: b in content && b.ToolResult? && b.callID == call
  }

  predicate Calls(m: Message, k: Key) {
    m.thread == k.thread && CallsIn(m.content, k.call)
  }

  predicate Answers(m: Message, k: Key) {
    m.thread == k.thread && AnswersIn(m.content, k.call)
  }

  // ----- Building the index -----

  /** `byKey` and `ambiguous` file exactly the `facts` (key, message). */
  ghost predicate Files(byKey: map<Key, Message>, ambiguous: set<Key>, facts: set<(Key, Message)>) {
    && (forall k, m :: (k, m) in facts ==> k in byKey)
    && (forall k :: k in byKey ==> (k, byKey[k]) in facts)
    && (forall k :: k in ambiguous ==>
        exists a: Message, b: Message :: (k, a) in facts && (k, b) in facts && a.id != b.id)
    && (forall k, a: Message, b: Message :: (k, a) in facts && (k, b) in facts && a.id != b.id ==> k in ambiguous)
  }

  /** Files one more occurrence, flagging a second message under the same key. */
  method File(byKey: map<Key, Message>, ambiguous: set<Key>, ghost facts: set<(Key, Message)>, k: Key, m: Message)
    returns (byKey': map<Key, Message>, ambiguous': set<Key>)
    requires Files(byKey, ambiguous, facts)
    ensures Files(byKey', ambiguous', facts + {(k, m)})
  {
    ambiguous' := ambiguous;
    if k in byKey && byKey[k].id != m.id {
      ambiguous' := ambiguous + {k};
    }
    byKey' := byKey[k := m];
    FileOne(byKey, ambiguous, facts, k, m);
  }

  lemma FileOne(byKey: map<Key, Message>, ambiguous: set<Key>, facts: set<(Key, Message)>, k: Key, m: Message)
    requires Files(byKey, ambiguous, facts)
    ensures Files(byKey[k := m], if k in byKey && byKey[k].id != m.id then ambiguous + {k}
                  else ambiguous, facts + {(k, m)})
  {
    var facts' := facts + {(k, m)};
    var ambiguous' := if k in byKey && byKey[k].id != m.id then ambiguous + {k} else ambiguous;
    forall x | x in ambiguous'
      ensures exists a: Message, b: Message :: (x, a) in facts' && (x, b) in facts' && a.id != b.id
    {
      if x in ambiguous {
        var a: Message, b: Message :| (x, a) in facts && (x, b) in facts && a.id != b.id;
        assert (x, a) in facts' && (x, b) in facts';
      } else {
        assert (k, byKey[k]) in facts' && (k, m) in facts';
      }
    }
    forall x, a: Message, b: Message | (x, a) in facts' && (x, b) in facts' && a.id != b.id ensures x in ambiguous' {
      if !((x, a) in facts && (x, b) in facts) {
        assert x == k && k in byKey && (k, byKey[k]) in facts;
        var o := if (x, a) in facts then a else b;
        if byKey[k].id == m.id {
          assert (k, o) in facts && o.id != byKey[k].id;
        }
      }
    }
  }

  /** The calls among the blocks `content` of `m`, each under its key. */
  ghost function CallFacts(m: Message, content: seq<Block>): set<(Key, Message)> {
    if content == [] then {}
    else
      var b := content[|content| - 1];
      CallFacts(m, content[..|content| - 1]) + (if b.ToolCall? && b.id != "" then {(Key(m.thread, b.id), m)} else {})
  }

  ghost function AnswerFacts(m: Message, content: seq<Block>): set<(Key, Message)> {
    if content == [] then {}
    else
      var b := content[|content| - 1];
      AnswerFacts(m, content[..|content| - 1]) +
          (if b.ToolResult? && b.callID != "" then {(Key(m.thread, b.callID), m)} else {})
  }

  ghost function CorpusCalls(corpus: seq<Message>): set<(Key, Message)> {
    if corpus == [] then {}
    else CorpusCalls(corpus[..|corpus| - 1]) + CallFacts(corpus[|corpus| - 1], corpus[|corpus| - 1].content)
  }

  ghost function CorpusAnswers(corpus: seq<Message>): set<(Key, Message)> {
    if corpus == [] then {}
    else CorpusAnswers(corpus[..|corpus| - 1]) + AnswerFacts(corpus[|corpus| - 1], corpus[|corpus| - 1].content)
  }

  lemma {:induction false} CallFactsMean(m: Message, content: seq<Block>, k: Key, x: Message)
    ensures (k, x) in CallFacts(m, content) <==> x == m && k.thread == m.thread && CallsIn(content, k.call)
  {
    if content != [] {
      CallFactsMean(m, content[..|content| - 1], k, x);
      assert content == content[..|content| - 1] + [content[|content| - 1]];
    }
  }

  lemma {:induction false} AnswerFactsMean(m: Message, content: seq<Block>, k: Key, x: Message)
    ensures (k, x) in AnswerFacts(m, content) <==> x == m && k.thread == m.thread && AnswersIn(content, k.call)
  {
    if content != [] {
      AnswerFactsMean(m, content[..|content| - 1], k, x);
      assert content == content[..|content| - 1] + [content[|content| - 1]];
    }
  }

  lemma {:induction false} CorpusCallsMean(corpus: seq<Message>, k: Key, x: Message)
    ensures (k, x) in CorpusCalls(corpus) <==> x in corpus && Calls(x, k)
  {
    if corpus != [] {
      var m := corpus[|corpus| - 1];
      CorpusCallsMean(corpus[..|corpus| - 1], k, x);
      CallFactsMean(m, m.content, k, x);
      assert corpus == corpus[..|corpus| - 1] + [m];
    }
  }

  lemma {:induction false} CorpusAnswersMean(corpus: seq<Message>, k: Key, x: Message)
    ensures (k, x) in CorpusAnswers(corpus) <==> x in corpus && Answers(x, k)
  {
    if corpus != [] {
      var m := corpus[|corpus| - 1];
      CorpusAnswersMean(corpus[..|corpus| - 1], k, x);
      AnswerFactsMean(m, m.content, k, x);
      assert corpus == corpus[..|corpus| - 1] + [m];
    }
  }

  /** What the index promises about the corpus it was built from. */
  ghost predicate IndexOf(idx: Index, corpus: seq<Message>) {
    && (forall k, m :: m in corpus && Calls(m, k) ==> k in idx.callByKey)
    && (forall k :: k in idx.callByKey ==> idx.callByKey[k] in corpus && Calls(idx.callByKey[k], k))
    && (forall k :: k in idx.ambiguousCalls <==>
          exists a, b :: a in corpus && b in corpus && Calls(a, k) && Calls(b, k) && a.id != b.id)
    && (forall k, m :: m in corpus && Answers(m, k) ==> k in idx.resultByKey)
    && (forall k :: k in idx.resultByKey ==> idx.resultByKey[k] in corpus && Answers(idx.resultByKey[k], k))
    && (forall k :: k in idx.ambiguousResults <==>
          exists a, b :: a in corpus && b in corpus && Answers(a, k) && Answers(b, k) && a.id != b.id)
  }

  lemma FiledIsIndexed(idx: Index, corpus: seq<Message>)
    requires Files(idx.callByKey, idx.ambiguousCalls, CorpusCalls(corpus))
    requires Files(idx.resultByKey, idx.ambiguousResults, CorpusAnswers(corpus))
    ensures IndexOf(idx, corpus)
  {
    forall k, x ensures (k, x) in CorpusCalls(corpus) <==> x in corpus && Calls(x, k) {
      CorpusCallsMean(corpus, k, x);
    }
    forall k, x ensures (k, x) in CorpusAnswers(corpus) <==> x in corpus && Answers(x, k) {
      CorpusAnswersMean(corpus, k, x);
    }
  }

  method NewIndex(corpus: seq<Message>) returns (idx: Index)
    ensures IndexOf(idx, corpus)
  {
    idx := Index(map[], map[], {}, {});
    for i := 0 to |corpus|
      invariant Files(idx.callByKey, idx.ambiguousCalls, CorpusCalls(corpus[..i]))
      invariant Files(idx.resultByKey, idx.ambiguousResults, CorpusAnswers(corpus[..i]))
    {
      assert corpus[..i + 1][..i] == corpus[..i];
      idx := FileMessage(idx, corpus[i], CorpusCalls(corpus[..i]), CorpusAnswers(corpus[..i]));
    }
    assert corpus[..|corpus|] == corpus;
    FiledIsIndexed(idx, corpus);
  }

  method FileMessage(idx0: Index, m: Message, ghost callFacts: set<(Key, Message)>,
                     ghost answerFacts: set<(Key, Message)>)
    returns (idx: Index)
    requires Files(idx0.callByKey, idx0.ambiguousCalls, callFacts)
    requires Files(idx0.resultByKey, idx0.ambiguousResults, answerFacts)
    ensures Files(idx.callByKey, idx.ambiguousCalls, callFacts + CallFacts(m, m.content))
    ensures Files(idx.resultByKey, idx.ambiguousResults, answerFacts + AnswerFacts(m, m.content))
  {
    idx := idx0;
    assert callFacts + CallFacts(m, []) == callFacts && answerFacts + AnswerFacts(m, []) == answerFacts;
    for j := 0 to |m.content|
      invariant Files(idx.callByKey, idx.ambiguousCalls, callFacts + CallFacts(m, m.content[..j]))
      invariant Files(idx.resultByKey, idx.ambiguousResults, answerFacts + AnswerFacts(m, m.content[..j]))
    {
      var b := m.content[j];
      assert m.content[..j + 1][..j] == m.content[..j];
      ghost var calls, answers := callFacts + CallFacts(m, m.content[..j]),
          answerFacts + AnswerFacts(m, m.content[..j]);
      if b.ToolCall? && b.id != "" {
        var byKey, twice := File(idx.callByKey, idx.ambiguousCalls, calls, Key(m.thread, b.id), m);
        idx := idx.(callByKey := byKey, ambiguousCalls := twice);
        assert callFacts + CallFacts(m, m.content[..j + 1]) == calls + {(Key(m.thread, b.id), m)};
      } else {
        assert CallFacts(m, m.content[..j + 1]) == CallFacts(m, m.content[..j]);
      }
      if b.ToolResult? && b.callID != "" {
        var byKey, twice := File(idx.resultByKey, idx.ambiguousResults, answers, Key(m.thread, b.callID), m);
        idx := idx.(resultByKey := byKey, ambiguousResults := twice);
        assert answerFacts + AnswerFacts(m, m.content[..j + 1]) == answers + {(Key(m.thread, b.callID), m)};
      } else {
        assert AnswerFacts(m, m.content[..j + 1]) == AnswerFacts(m, m.content[..j]);
      }
    }
    assert m.content[..|m.content|] == m.content;
  }
}
