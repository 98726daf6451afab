/** Message and thread identifiers: strings under the byte-wise lexicographic order that
    `sort.Strings` and the heap tie-break use. */
module Ids {
  import Sorting

  /** Strict lexicographic order. */
  predicate Less(a: string, b: string)
  {
    if b == [] then false
    else if a == [] then true
    else a[0] < b[0] || (a[0] == b[0] && Less(a[1..], b[1..]))
  }

  /** `a` comes first exactly when it is a proper prefix of `b` or has the smaller character at the
      first place where they differ. */
  lemma {:induction false} LessIsLexicographic(a: string, b: string)
    ensures Less(a, b) <==> (|a| < |b| && a == b[..|a|]) ||
                            exists k: nat {:trigger a[..k]} :: k < |a| && k < |b| && a[..k] == b[..k] && a[k] < b[k]
  {
    if a != [] && b != [] {
      LessIsLexicographic(a[1..], b[1..]);
      if a[0] == b[0] {
        PrefixShifts(a, b);
      } else {
        forall k: nat {:trigger a[..k]} | 0 < k < |a| && k < |b|
          ensures a[..k] != b[..k]
        {
          assert a[..k][0] != b[..k][0];
        }
        assert a[..0] == b[..0];
        assert |a| <= |b| ==> b[..|a|][0] == b[0];
      }
    }
  }

  lemma PrefixShifts(a: string, b: string)
    requires a != [] && b != [] && a[0] == b[0]
    ensures (|a| < |b| && a == b[..|a|]) <==> (|a[1..]| < |b[1..]| && a[1..] == b[1..][..|a[1..]|])
    ensures (exists k: nat {:trigger a[..k]} :: k < |a| && k < |b| && a[..k] == b[..k] && a[k] < b[k]) <==>
            (exists k: nat {:trigger a[1..][..k]} ::
               k < |a[1..]| && k < |b[1..]| && a[1..][..k] == b[1..][..k] && a[1..][k] < b[1..][k])
  {
    var s, t := a[1..], b[1..];
    assert a == [a[0]] + s && b == [a[0]] + t;
    if |a| < |b| {
      assert b[..|a|] == [a[0]] + t[..|s|];
    }
    if k: nat :| k < |a| && k < |b| && a[..k] == b[..k] && a[k] < b[k] {
      assert k > 0;
      assert s[..k - 1] == a[..k][1..] && t[..k - 1] == b[..k][1..];
      assert s[k - 1] < t[k - 1];
    }
    if k: nat {:trigger s[..k]} :| k < |s| && k < |t| && s[..k] == t[..k] && s[k] < t[k] {
      assert a[..k + 1] == [a[0]] + s[..k] && b[..k + 1] == [a[0]] + t[..k];
      assert a[k + 1] < b[k + 1];
    }
  }

  predicate AtMost(a: string, b: string) {
    a == b || Less(a, b)
  }

  lemma {:induction false} LessIrreflexive(a: string)
    ensures !Less(a, a)
  {
    if a != [] { LessIrreflexive(a[1..]); }
  }

  lemma {:induction false} LessTransitive(a: string, b: string, c: string)
    requires Less(a, b) && Less(b, c)
    ensures Less(a, c)
  {
    if a != [] && a[0] == b[0] && b[0] == c[0] {
      LessTransitive(a[1..], b[1..], c[1..]);
    }
  }

  lemma {:induction false} LessTotal(a: string, b: string)
    ensures a == b || Less(a, b) || Less(b, a)
  {
    if a != [] && b != [] && a[0] == b[0] {
      LessTotal(a[1..], b[1..]);
      assert a == [a[0]] + a[1..] && b == [b[0]] + b[1..];
    }
  }

  lemma LessAsymmetric(a: string, b: string)
    requires Less(a, b)
    ensures !Less(b, a)
  {
    if Less(b, a) {
      LessTransitive(a, b, a);
      LessIrreflexive(a);
    }
  }

  /** `s` in ascending order, duplicates kept. */
  function Sort(s: seq<string>): seq<string> {
    Sorting.Sort(AtMost, s)
  }

  lemma SortAscends(s: seq<string>)
    ensures Sorting.SortedBy(AtMost, Sort(s))
    ensures multiset(Sort(s)) == multiset(s)
  {
    forall x: string, y: string ensures AtMost(x, y) || AtMost(y, x) { LessTotal(x, y); }
    forall x: string, y: string, z: string | AtMost(x, y) && AtMost(y, z) ensures AtMost(x, z) {
      if Less(x, y) && Less(y, z) { LessTransitive(x, y, z); }
    }
    Sorting.SortSorts(AtMost, s);
  }
}
