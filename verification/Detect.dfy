/** The acceptance law's rank statistics (rrc/detect.go). Evidence is carried as a null
    probability p instead of -log2(p) bits: bits that add are probabilities that multiply, and
    converting bits back to a confidence is 1 - p. */
module Detect {

  /** With fewer references than this no floor can be measured. */
  const MIN_REFERENCE_SAMPLE := 4

  /** How many references score at or above `score`. */
  function AtOrAbove(score: real, refs: seq<real>): (k: nat)
    ensures k <= |refs|
    ensures k == 0 <==> forall i :: 0 <= i < |refs| ==> refs[i] < score
  {
    if refs == [] then 0
    else
      assert refs == refs[..|refs| - 1] + [refs[|refs| - 1]];
      AtOrAbove(score, refs[..|refs| - 1]) + (if refs[|refs| - 1] >= score then 1 else 0)
  }

  /** It counts them. */
  lemma {:induction false} AtOrAboveCounts(score: real, refs: seq<real>)
    ensures AtOrAbove(score, refs) == |set i | 0 <= i < |refs| && refs[i] >= score|
  {
    var now := set i | 0 <= i < |refs| && refs[i] >= score;
    if refs == [] {
      assert now == {};
    } else {
      var front, n := refs[..|refs| - 1], |refs| - 1;
      AtOrAboveCounts(score, front);
      var before := set i | 0 <= i < |front| && front[i] >= score;
      assert forall i :: 0 <= i < n ==> front[i] == refs[i];
      assert now == if refs[n] >= score then before + {n} else before;
    }
  }

  method NullP(score: real, refs: seq<real>) returns (p: real)
    ensures p == RankP(score, refs)
    ensures p == (|set i | 0 <= i < |refs| && refs[i] >= score| + 1) as real / (|refs| + 1) as real
  {
    AtOrAboveCounts(score, refs);
    var k := 0;
    for i := 0 to |refs|
      invariant k == AtOrAbove(score, refs[..i])
    {
      assert refs[..i + 1][..i] == refs[..i];
      if refs[i] >= score { k := k + 1; }
    }
    assert refs[..|refs|] == refs;
    p := (k + 1) as real / (|refs| + 1) as real;
  }

  /** The chance that background noise ranks at least as high among the references. */
  function RankP(score: real, refs: seq<real>): real {
    (AtOrAbove(score, refs) + 1) as real / (|refs| + 1) as real
  }

  /** The null probability of beating the whole sample. */
  function BeatAll(refs: seq<real>): real {
    1.0 / (|refs| + 1) as real
  }

  /** Confidence carried by evidence of null probability `p`. */
  function Confidence(p: real): real {
    1.0 - p
  }

  lemma DivideMonotone(a: real, b: real, n: real)
    requires n > 0.0
    ensures a < b ==> a / n < b / n
    ensures a <= b ==> a / n <= b / n
  {
  }

  /** A score clears the beat-all bar exactly when it beats every reference, and then carries
      confidence R / (R + 1). */
  lemma BeatsAllExactly(score: real, refs: seq<real>)
    ensures RankP(score, refs) <= BeatAll(refs) <==> forall i :: 0 <= i < |refs| ==> refs[i] < score
    ensures RankP(score, refs) <= BeatAll(refs) ==>
              Confidence(RankP(score, refs)) == |refs| as real / (|refs| + 1) as real
    ensures 0.0 < RankP(score, refs) <= 1.0
  {
    var k, n := AtOrAbove(score, refs), (|refs| + 1) as real;
    DivideMonotone(1.0, (k + 1) as real, n);
    DivideMonotone((k + 1) as real, n, n);
    DivideMonotone(0.0, (k + 1) as real, n);
    assert n / n == 1.0 && 0.0 / n == 0.0;
    if k == 0 {
      assert 1.0 - 1.0 / n == |refs| as real / n;
    }
  }
}
