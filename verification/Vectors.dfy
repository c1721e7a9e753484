/** Vectors of reals: the part of numpy the simulators use. */
module Vectors {

  type Vec = seq<real>

  function Abs(x: real): real {
    if x < 0.0 then -x else x
  }

  function Min(a: real, b: real): real {
    if a <= b then a else b
  }

  function Max(a: real, b: real): real {
    if a >= b then a else b
  }

  function Sum(v: Vec): real {
    if |v| == 0 then 0.0 else Sum(v[..|v| - 1]) + v[|v| - 1]
  }

  function Zeros(m: nat): (v: Vec)
    ensures |v| == m
  {
    seq(m, _ => 0.0)
  }

  function Nowhere(m: nat): (mask: seq<bool>)
    ensures |mask| == m
  {
    seq(m, _ => false)
  }

  predicate Any(mask: seq<bool>) {
    exists j :: 0 <= j < |mask| && mask[j]
  }

  function Times(a: Vec, b: Vec): (v: Vec)
    requires |a| == |b|
    ensures |v| == |a|
  {
    seq(|a|, j requires 0 <= j < |a| => a[j] * b[j])
  }

  function Dot(a: Vec, b: Vec): real
    requires |a| == |b|
  {
    Sum(Times(a, b))
  }

  function AbsAll(a: Vec): (v: Vec)
    ensures |v| == |a|
  {
    seq(|a|, j requires 0 <= j < |a| => Abs(a[j]))
  }

  function Minus(a: Vec, b: Vec): (v: Vec)
    requires |a| == |b|
    ensures |v| == |a|
  {
    seq(|a|, j requires 0 <= j < |a| => a[j] - b[j])
  }

  function Plus(a: Vec, b: Vec): (v: Vec)
    requires |a| == |b|
    ensures |v| == |a|
  {
    seq(|a|, j requires 0 <= j < |a| => a[j] + b[j])
  }

  /** `v` where the mask holds, zero elsewhere: its sum is numpy's `v[mask].sum()`. */
  function Where(mask: seq<bool>, v: Vec): (w: Vec)
    requires |mask| == |v|
    ensures |w| == |v|
  {
    seq(|v|, j requires 0 <= j < |v| => if mask[j] then v[j] else 0.0)
  }

  /** numpy's `where(mask, a, b)`. */
  function Choose<T>(mask: seq<bool>, a: seq<T>, b: seq<T>): (c: seq<T>)
    requires |mask| == |a| == |b|
    ensures |c| == |a|
  {
    seq(|a|, j requires 0 <= j < |a| => if mask[j] then a[j] else b[j])
  }

  function NonZero(v: Vec): (mask: seq<bool>)
    ensures |mask| == |v|
  {
    seq(|v|, j requires 0 <= j < |v| => v[j] != 0.0)
  }

  lemma {:induction false} SumPlus(a: Vec, b: Vec, c: Vec)
    requires |a| == |b| == |c|
    requires forall j :: 0 <= j < |a| ==> c[j] == a[j] + b[j]
    ensures Sum(c) == Sum(a) + Sum(b)
  {
    if |a| > 0 {
      SumPlus(a[..|a| - 1], b[..|a| - 1], c[..|a| - 1]);
    }
  }

  lemma {:induction false} SumZero(a: Vec)
    requires forall j :: 0 <= j < |a| ==> a[j] == 0.0
    ensures Sum(a) == 0.0
  {
    if |a| > 0 {
      SumZero(a[..|a| - 1]);
    }
  }

  lemma QuotientOrder(a: real, b: real, c: real)
    requires c > 0.0
    ensures a / c <= b / c <==> a <= b
  {
    var p, q := a / c, b / c;
    assert p * c == a && q * c == b;
    if p <= q {
      assert p * c <= q * c;
    } else {
      assert p * c > q * c;
    }
  }

  lemma QuotientIs(a: real, b: real, q: real)
    requires b != 0.0 && q * b == a
    ensures a / b == q
  {
    var d := a / b - q;
    assert d * b == 0.0;
  }

  lemma QuotientSign(h: real, f: real, g: real)
    requires g > 0.0
    ensures h * f / g > 0.0 <==> (h > 0.0 && f > 0.0) || (h < 0.0 && f < 0.0)
  {
    assert h * f / g * g == h * f;
    if h > 0.0 && f > 0.0 {
      assert h * f > 0.0;
    } else if h < 0.0 && f < 0.0 {
      assert h * f > 0.0;
    } else if h > 0.0 {
      assert h * f <= 0.0;
    } else if h < 0.0 {
      assert h * f <= 0.0;
    }
  }
}
