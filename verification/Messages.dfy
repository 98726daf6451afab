/** Stored messages and their content blocks. */
module Messages {
  import Ids
  import Sorting

  datatype Role = User | Assistant | System | Unspecified

  datatype Block =
    | Text(text: string)
    | Thinking(text: string)
    | ToolCall(id: string, name: string, arguments: string)
    | ToolResult(callID: string, content: string, isError: bool)
    | Media

  datatype Message = Message(
    id: string,
    thread: string,
    turn: string,
    position: int,
    role: Role,
    content: seq<Block>)

  /** Text and thinking are co-equal semantic content; everything else is record. */
  predicate Semantic(b: Block) {
    (b.Text? || b.Thinking?) && b.text != ""
  }

  predicate HasSemanticBlock(content: seq<Block>) {
    exists b :: b in content && Semantic(b)
  }

  /** Some block of the message is text or thinking, and not empty. */
  ghost predicate SaysSomething(m: Message) {
    exists b :: b in m.content && (b.Text? || b.Thinking?) && b.text != ""
  }

  /** One message per id. */
  ghost predicate UniqueIds(ms: seq<Message>) {
    forall a, b :: a in ms && b in ms && a.id == b.id ==> a == b
  }

  /** Delivery order inside a group: by thread, then position. */
  predicate NotLater(a: Message, b: Message) {
    if a.thread != b.thread then Ids.Less(a.thread, b.thread) else a.position <= b.position
  }

  lemma NotLaterOrders()
    ensures Sorting.TotalPreorder(NotLater)
  {
    forall a: Message, b: Message ensures NotLater(a, b) || NotLater(b, a) {
      Ids.LessTotal(a.thread, b.thread);
    }
    forall a: Message, b: Message, c: Message | NotLater(a, b) && NotLater(b, c) ensures NotLater(a, c) {
      if a.thread != b.thread && b.thread != c.thread {
        Ids.LessTransitive(a.thread, b.thread, c.thread);
        Ids.LessIrreflexive(a.thread);
      }
    }
  }

  /** Thread by thread in ascending order, and inside a thread by position. */
  ghost predicate ThreadByThread(ms: seq<Message>) {
    && (forall i, j :: 0 <= i < j < |ms| && ms[i].thread == ms[j].thread ==> ms[i].position <= ms[j].position)
    && (forall i, j, k :: 0 <= i < j < k < |ms| && ms[i].thread == ms[k].thread ==> ms[j].thread == ms[i].thread)
    && (forall i, j :: 0 <= i < j < |ms| ==> !Ids.Less(ms[j].thread, ms[i].thread))
  }

  lemma NotLaterIsByThread(ms: seq<Message>)
    requires Sorting.SortedBy(NotLater, ms)
    ensures ThreadByThread(ms)
  {
    forall i, j | 0 <= i < j < |ms|
      ensures ms[i].thread == ms[j].thread ==> ms[i].position <= ms[j].position
      ensures !Ids.Less(ms[j].thread, ms[i].thread)
    {
      assert NotLater(ms[i], ms[j]);
      Ids.LessIrreflexive(ms[i].thread);
      if Ids.Less(ms[i].thread, ms[j].thread) { Ids.LessAsymmetric(ms[i].thread, ms[j].thread); }
    }
    forall i, j, k | 0 <= i < j < k < |ms| && ms[i].thread == ms[k].thread ensures ms[j].thread == ms[i].thread {
      Between(ms[i], ms[j], ms[k]);
    }
  }

  lemma Between(a: Message, b: Message, c: Message)
    requires NotLater(a, b) && NotLater(b, c) && a.thread == c.thread
    ensures b.thread == a.thread
  {
    if b.thread != a.thread {
      Ids.LessAsymmetric(a.thread, b.thread);
    }
  }

  /** Positions are unique inside a thread. */
  ghost predicate UniquePositions(ms: seq<Message>) {
    forall a, b :: a in ms && b in ms && a.thread == b.thread && a.position == b.position ==> a == b
  }
}
