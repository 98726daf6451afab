/** The NUL-separated text keys of tool calls and closures name exactly the pairs the other
    modules key by (rrc/protocol.go, rrc/assembly.go). */
module Keys {
  import opened Messages
  import Protocol
  import Delivery

  const NUL: char := '\0'

  /** `sep` does not occur in `s`. */
  ghost predicate Without(sep: char, s: string) {
    forall i :: 0 <= i < |s| ==> s[i] != sep
  }

  ghost predicate Plain(s: string) {
    Without(NUL, s)
  }

  function ProtocolKey(thread: string, call: string): string {
    thread + [NUL] + call
  }

  /** A text that starts with a part free of `sep` and then `sep` splits there and nowhere else. */
  lemma SplitsOnce(sep: char, a: string, rest: string, b: string, rest': string)
    requires Without(sep, a) && Without(sep, b) && a + [sep] + rest == b + [sep] + rest'
    ensures a == b && rest == rest'
  {
    var x, y := a + [sep] + rest, b + [sep] + rest';
    assert x[|a|] == sep && y[|b|] == sep;
    assert forall i :: 0 <= i < |a| ==> x[i] == a[i];
    assert forall i :: 0 <= i < |b| ==> y[i] == b[i];
    assert |a| == |b|;
    assert a == x[..|a|] && b == y[..|b|];
    assert rest == x[|a| + 1..] && rest' == y[|b| + 1..];
  }

  /** Thread ids without NUL keep tool-call keys apart, whatever the call ids hold. */
  lemma ProtocolKeyIsInjective(k: Protocol.Key, l: Protocol.Key)
    requires Plain(k.thread) && Plain(l.thread)
    ensures ProtocolKey(k.thread, k.call) == ProtocolKey(l.thread, l.call) <==> k == l
  {
    if ProtocolKey(k.thread, k.call) == ProtocolKey(l.thread, l.call) {
      SplitsOnce(NUL, k.thread, k.call, l.thread, l.call);
    }
  }

  /** `s` in two parts around one of its NULs. */
  lemma AtNul(s: string) returns (a: string, b: string)
    requires !Plain(s)
    ensures s == a + [NUL] + b && |a| < |s|
  {
    var i :| 0 <= i < |s| && s[i] == NUL;
    a, b := s[..i], s[i + 1..];
  }

  /** A thread id with NUL shares its text keys with another thread's. */
  lemma NulThreadCollides(k: Protocol.Key) returns (l: Protocol.Key)
    requires !Plain(k.thread)
    ensures l.thread != k.thread && ProtocolKey(l.thread, l.call) == ProtocolKey(k.thread, k.call)
  {
    var a, b := AtNul(k.thread);
    l := Protocol.Key(a, b + [NUL] + k.call);
    assert a + [NUL] + (b + [NUL] + k.call) == a + [NUL] + b + [NUL] + k.call;
  }

  function ClosureText(ms: seq<Message>): string {
    if ms == [] then "" else ms[0].thread + [NUL] + (ms[0].id + [NUL] + ClosureText(ms[1..]))
  }

  ghost predicate PlainIds(ms: seq<Message>) {
    forall i :: 0 <= i < |ms| ==> Plain(ms[i].thread) && Plain(ms[i].id)
  }

  /** Without NUL in thread and message ids, two closures share a text key exactly when they list
      the same (thread, id) pairs. */
  lemma {:induction false} ClosureTextIsInjective(a: seq<Message>, b: seq<Message>)
    requires PlainIds(a) && PlainIds(b)
    ensures ClosureText(a) == ClosureText(b) <==> Delivery.ClosureKey(a) == Delivery.ClosureKey(b)
    decreases |a|
  {
    var k, l := Delivery.ClosureKey(a), Delivery.ClosureKey(b);
    if a == [] || b == [] {
      assert (a == []) == (k == []) && (b == []) == (l == []);
    } else {
      ClosureTextIsInjective(a[1..], b[1..]);
      assert Delivery.ClosureKey(a[1..]) == k[1..] && Delivery.ClosureKey(b[1..]) == l[1..];
      assert k == [k[0]] + k[1..] && l == [l[0]] + l[1..];
      if ClosureText(a) == ClosureText(b) {
        SplitsOnce(NUL, a[0].thread, a[0].id + [NUL] + ClosureText(a[1..]), b[0].thread,
                   b[0].id + [NUL] + ClosureText(b[1..]));
        SplitsOnce(NUL, a[0].id, ClosureText(a[1..]), b[0].id, ClosureText(b[1..]));
      }
    }
  }

  /** The message that reads the same around another of its NULs. */
  lemma Shifted(m: Message) returns (x: Message)
    requires !Plain(m.thread) || !Plain(m.id)
    ensures x.thread != m.thread && x.thread + [NUL] + x.id == m.thread + [NUL] + m.id
  {
    if !Plain(m.thread) {
      var a, b := AtNul(m.thread);
      x := m.(thread := a, id := b + [NUL] + m.id);
      assert a + [NUL] + (b + [NUL] + m.id) == a + [NUL] + b + [NUL] + m.id;
    } else {
      var a, b := AtNul(m.id);
      x := m.(thread := m.thread + [NUL] + a, id := b);
      assert m.thread + [NUL] + a + [NUL] + b == m.thread + [NUL] + (a + [NUL] + b);
    }
  }

  lemma {:induction false} ShiftedText(ms: seq<Message>, i: nat, x: Message)
    requires i < |ms| && x.thread + [NUL] + x.id == ms[i].thread + [NUL] + ms[i].id
    ensures ClosureText(ms[i := x]) == ClosureText(ms)
  {
    var m, rest := ms[0], ClosureText(ms[1..]);
    if i == 0 {
      assert ms[0 := x][1..] == ms[1..];
      assert x.thread + [NUL] + (x.id + [NUL] + rest) == x.thread + [NUL] + x.id + ([NUL] + rest);
      assert m.thread + [NUL] + (m.id + [NUL] + rest) == m.thread + [NUL] + m.id + ([NUL] + rest);
    } else {
      assert ms[i := x][1..] == ms[1..][i - 1 := x];
      ShiftedText(ms[1..], i - 1, x);
    }
  }

  /** A closure with NUL in some id shares its text key with another list of ids. */
  lemma NulIdCollides(ms: seq<Message>) returns (other: seq<Message>)
    requires !PlainIds(ms)
    ensures ClosureText(other) == ClosureText(ms) && Delivery.ClosureKey(other) != Delivery.ClosureKey(ms)
  {
    var i :| 0 <= i < |ms| && !(Plain(ms[i].thread) && Plain(ms[i].id));
    var x := Shifted(ms[i]);
    ShiftedText(ms, i, x);
    other := ms[i := x];
    assert Delivery.ClosureKey(other)[i] != Delivery.ClosureKey(ms)[i];
  }
}
