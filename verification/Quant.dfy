/** Sign codes and per-vector int8 quantization (service/annindex/quant.go). */
module Quant {

  function Abs(x: real): real {
    if x < 0.0 then -x else x
  }

  /** Largest magnitude in the vector. */
  ghost predicate IsPeak(vec: seq<real>, peak: real) {
    && 0.0 <= peak && (forall i :: 0 <= i < |vec| ==> Abs(vec[i]) <= peak)
    && (peak == 0.0 || exists i :: 0 <= i < |vec| && Abs(vec[i]) == peak)
  }

  /** Nearest integer, halves away from zero. */
  function Round(x: real): int {
    if x >= 0.0 then (x + 0.5).Floor else -((0.5 - x).Floor)
  }

  lemma RoundIsNear(x: real)
    ensures Abs(Round(x) as real - x) <= 0.5
  {
  }

  /** One component: rounded, then clamped to int8. */
  function Clamped(q: int): int {
    if q > 127 then 127 else if q < -128 then -128 else q
  }

  lemma ScaledIsNear(x: real, peak: real)
    requires peak > 0.0 && Abs(x) <= peak
    ensures var scale := peak / 127.0; scale > 0.0 && -127.0 <= x / scale <= 127.0 && (x / scale) * scale == x
  {
    var scale := peak / 127.0;
    var y := x / scale;
    assert y * scale == x && 127.0 * scale == peak;
    Squeeze(y, 127.0, scale);
    Squeeze(-y, 127.0, scale);
    assert (-y) * scale == -x;
  }

  lemma Squeeze(a: real, b: real, s: real)
    requires s > 0.0 && a * s <= b * s
    ensures a <= b
  {
    if a > b { Stretch(b, a, s); }
  }

  lemma Stretch(a: real, b: real, s: real)
    requires s > 0.0 && a < b
    ensures a * s < b * s
  {
    assert (b - a) * s > 0.0;
  }

  /** Each code stays inside [-127, 127], so the clamps never act, and reconstructs its
      component within half the scale. */
  ghost predicate CodedWell(x: real, code: int, scale: real) {
    -127 <= code <= 127 && Abs(code as real * scale - x) <= scale / 2.0
  }

  lemma ComponentIsCodedWell(x: real, peak: real)
    requires peak > 0.0 && Abs(x) <= peak
    ensures var scale := peak / 127.0;
            CodedWell(x, Clamped(Round(x / scale)), scale) && Clamped(Round(x / scale)) == Round(x / scale)
  {
    var scale := peak / 127.0;
    ScaledIsNear(x, peak);
    var y := x / scale;
    var q := Round(y);
    RoundIsNear(y);
    CodeIsNear(q, y, x, scale);
  }

  lemma CodeIsNear(q: int, y: real, x: real, scale: real)
    requires scale > 0.0 && y * scale == x && Abs(q as real - y) <= 0.5 && -127 <= q <= 127
    ensures CodedWell(x, q, scale)
  {
    var d := q as real - y;
    assert d * scale == q as real * scale - y * scale;
    Magnify(d, 0.5, scale);
  }

  lemma Magnify(d: real, bound: real, s: real)
    requires s >= 0.0 && Abs(d) <= bound
    ensures Abs(d * s) <= bound * s
  {
    assert (bound - d) * s >= 0.0 && (bound + d) * s >= 0.0;
    assert (bound - d) * s == bound * s - d * s && (bound + d) * s == bound * s + d * s;
  }

  method QuantizeInt8(vec: seq<real>) returns (code: seq<int>, scale: real)
    ensures |code| == |vec| && scale >= 0.0 && IsPeak(vec, scale * 127.0)
    ensures forall i :: 0 <= i < |vec| ==> CodedWell(vec[i], code[i], scale)
  {
    var peak := 0.0;
    for i := 0 to |vec|
      invariant 0.0 <= peak && forall j :: 0 <= j < i ==> Abs(vec[j]) <= peak
      invariant peak == 0.0 || exists j :: 0 <= j < i && Abs(vec[j]) == peak
    {
      if Abs(vec[i]) > peak { peak := Abs(vec[i]); }
    }
    if peak == 0.0 {
      code, scale := seq(|vec|, _ => 0), 0.0;
      forall i | 0 <= i < |vec| ensures CodedWell(vec[i], code[i], scale) { assert vec[i] == 0.0; }
      return;
    }
    code, scale := [], peak / 127.0;
    for i := 0 to |vec|
      invariant |code| == i && forall j :: 0 <= j < i ==> CodedWell(vec[j], code[j], scale)
    {
      ComponentIsCodedWell(vec[i], peak);
      code := code + [Clamped(Round(vec[i] / scale))];
    }
    assert scale * 127.0 == peak;
  }

  // ----- Scores -----

  function Sum(xs: seq<real>): real {
    if xs == [] then 0.0 else Sum(xs[..|xs| - 1]) + xs[|xs| - 1]
  }

  ghost function Products(q: seq<real>, v: seq<real>): (r: seq<real>)
    requires |q| == |v|
    ensures |r| == |q| && forall i :: 0 <= i < |q| ==> r[i] == q[i] * v[i]
  {
    seq(|q|, i requires 0 <= i < |q| => q[i] * v[i])
  }

  /** The true similarity of query and vector. */
  ghost function Dot(q: seq<real>, v: seq<real>): real
    requires |q| == |v|
  {
    Sum(Products(q, v))
  }

  ghost function Magnitudes(q: seq<real>): (r: seq<real>)
    ensures |r| == |q| && forall i :: 0 <= i < |q| ==> r[i] == Abs(q[i])
  {
    seq(|q|, i requires 0 <= i < |q| => Abs(q[i]))
  }

  ghost function AsReals(code: seq<int>): (r: seq<real>)
    ensures |r| == |code| && forall i :: 0 <= i < |code| ==> r[i] == code[i] as real
  {
    seq(|code|, i requires 0 <= i < |code| => code[i] as real)
  }

  method AsymmetricInt8Score(query: seq<real>, code: seq<int>, scale: real) returns (score: real)
    requires |query| == |code|
    ensures score == Dot(query, AsReals(code)) * scale
  {
    var s := 0.0;
    ghost var terms := Products(query, AsReals(code));
    for i := 0 to |query|
      invariant s == Sum(terms[..i])
    {
      assert terms[..i + 1][..i] == terms[..i];
      s := s + query[i] * (code[i] as real);
    }
    assert terms[..|query|] == terms;
    score := s * scale;
  }

  /** `total`, scaled, strays from `exact` by at most half the scale times `weight`. */
  ghost predicate Strays(total: real, scale: real, exact: real, weight: real) {
    Abs(total * scale - exact) <= (scale / 2.0) * weight
  }

  lemma {:induction false} SumsStray(a: seq<real>, scale: real, x: seq<real>, w: seq<real>)
    requires |a| == |x| == |w|
    requires forall i :: 0 <= i < |a| ==> Strays(a[i], scale, x[i], w[i])
    ensures Strays(Sum(a), scale, Sum(x), Sum(w))
  {
    if a != [] {
      var n := |a| - 1;
      SumsStray(a[..n], scale, x[..n], w[..n]);
      AddErrors(Sum(a[..n]), a[n], Sum(a), scale, Sum(x[..n]), x[n], Sum(x), Sum(w[..n]), w[n], Sum(w));
    }
  }

  /** The score strays from the true dot product by at most half the scale, that is a 254th of
      the vector's peak, times the query's total magnitude. */
  lemma ScoreIsClose(query: seq<real>, vec: seq<real>, code: seq<int>, scale: real)
    requires |query| == |vec| == |code| && scale >= 0.0
    requires forall i :: 0 <= i < |vec| ==> CodedWell(vec[i], code[i], scale)
    ensures Strays(Dot(query, AsReals(code)), scale, Dot(query, vec), Sum(Magnitudes(query)))
  {
    forall i | 0 <= i < |query|
      ensures Strays(Products(query, AsReals(code))[i], scale, Products(query, vec)[i], Magnitudes(query)[i])
    {
      TermStrays(query[i], vec[i], code[i], scale);
    }
    SumsStray(Products(query, AsReals(code)), scale, Products(query, vec), Magnitudes(query));
  }

  lemma TermStrays(q: real, x: real, c: int, scale: real)
    requires scale >= 0.0 && CodedWell(x, c, scale)
    ensures Strays(q * (c as real), scale, q * x, Abs(q))
  {
    var d := c as real * scale - x;
    assert (q * (c as real)) * scale - q * x == d * q;
    if q >= 0.0 {
      Magnify(d, scale / 2.0, q);
    } else {
      Magnify(d, scale / 2.0, -q);
      assert d * (-q) == -(d * q);
    }
  }

  lemma AddErrors(a: real, b: real, total: real, s: real, x: real, y: real, exact: real, v: real, w: real, weight: real)
    requires Strays(a, s, x, v) && Strays(b, s, y, w)
    requires total == a + b && exact == x + y && weight == v + w
    ensures Strays(total, s, exact, weight)
  {
    assert (a + b) * s == a * s + b * s;
    assert (s / 2.0) * (v + w) == (s / 2.0) * v + (s / 2.0) * w;
  }

  /** Sign code: bit `i` is set iff the component is not negative. */
  function Binarize(vec: seq<real>): (code: seq<bool>)
    ensures |code| == |vec|
  {
    seq(|vec|, i requires 0 <= i < |vec| => vec[i] >= 0.0)
  }
}
