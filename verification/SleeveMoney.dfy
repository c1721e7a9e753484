/** The money behind the weights: a return earns on each position and leaves the cash alone. */
module SleeveMoney {
  import opened Vectors
  import opened SleeveBook

  /** The scaled weights sum to what the sums say. */
  ghost predicate Scales(held: Vec, r: Vec, g: real)
    requires |held| == |r| && g > 0.0
  {
    Sum(Drifted(held, r, g)) * g == Sum(held) + Dot(held, r)
  }

  lemma {:induction false} ScaledSum(held: Vec, r: Vec, g: real)
    requires |held| == |r| && g > 0.0
    ensures Scales(held, r, g)
  {
    if |held| > 0 {
      hide Scales;
      ScaledSum(held[..|held| - 1], r[..|held| - 1], g);
      ScalesOneMore(held, r, g);
    }
  }

  lemma ScalesOneMore(held: Vec, r: Vec, g: real)
    requires |held| == |r| > 0 && g > 0.0 && Scales(held[..|held| - 1], r[..|held| - 1], g)
    ensures Scales(held, r, g)
  {
    hide Drifted, Times, Sum, Dot, Grown;
    var n := |held| - 1;
    var h, s := held[..n], r[..n];
    DriftedPrefix(held, r, g);
    SumOfLast(Drifted(held, r, g), Drifted(h, s, g));
    SumOfLast(held, h);
    DotOfLast(held, r);
    DriftedAt(held, r, g, n);
    ScaledStep(Sum(Drifted(h, s, g)), Sum(h), Dot(h, s), held[n], r[n], g, Sum(Drifted(held, r, g)), Sum(held), Dot(held, r));
  }

  lemma DriftedPrefix(held: Vec, r: Vec, g: real)
    requires |held| == |r| > 0 && g > 0.0
    ensures Drifted(held, r, g)[..|held| - 1] == Drifted(held[..|held| - 1], r[..|held| - 1], g)
  {
    var n := |held| - 1;
    forall j | 0 <= j < n
      ensures Drifted(held, r, g)[j] == Drifted(held[..n], r[..n], g)[j]
    {
      DriftedAt(held, r, g, j);
      DriftedAt(held[..n], r[..n], g, j);
    }
  }

  lemma DriftedAt(held: Vec, r: Vec, g: real, j: nat)
    requires |held| == |r| && g > 0.0 && j < |held|
    ensures Drifted(held, r, g)[j] == Grown(held[j], r[j], g)
  {
  }

  lemma SumOfLast(v: Vec, before: Vec)
    requires |v| > 0 && v[..|v| - 1] == before
    ensures Sum(v) == Sum(before) + v[|v| - 1]
  {
  }

  lemma DotOfLast(a: Vec, b: Vec)
    requires |a| == |b| > 0
    ensures Dot(a, b) == Dot(a[..|a| - 1], b[..|a| - 1]) + a[|a| - 1] * b[|a| - 1]
  {
    var n := |a| - 1;
    forall j | 0 <= j < n
      ensures Times(a, b)[j] == Times(a[..n], b[..n])[j]
    {
      TimesAt(a, b, j);
      TimesAt(a[..n], b[..n], j);
    }
    TimesAt(a, b, n);
    hide Times;
    assert Times(a, b)[..n] == Times(a[..n], b[..n]);
    SumOfLast(Times(a, b), Times(a[..n], b[..n]));
  }

  lemma TimesAt(a: Vec, b: Vec, j: nat)
    requires |a| == |b| && j < |a|
    ensures Times(a, b)[j] == a[j] * b[j]
  {
  }

  lemma GrownTimes(h: real, r: real, g: real)
    requires g > 0.0
    ensures Grown(h, r, g) * g == h + h * r
  {
    var e := h * (1.0 + r);
    assert e / g * g == e;
    assert e == h + h * r;
  }

  lemma Distribute(a: real, b: real, g: real)
    ensures (a + b) * g == a * g + b * g
  {
  }

  lemma ScaledStep(scaled: real, sum: real, dot: real, h: real, r: real, g: real, scaled': real, sum': real, dot': real)
    requires g > 0.0 && scaled * g == sum + dot
    requires scaled' == scaled + Grown(h, r, g) && sum' == sum + h && dot' == dot + h * r
    ensures scaled' * g == sum' + dot'
  {
    GrownTimes(h, r, g);
    hide Grown;
    Distribute(scaled, Grown(h, r, g), g);
  }

  /** What is in cash at a NAV and weights. */
  function Cash(nav: real, weights: Vec): real {
    nav * (1.0 - Sum(weights))
  }

  /** The NAV after a growth, before any trade. */
  function GrownNav(nav: real, g: real): real {
    nav * g
  }

  /** What is in one position. */
  function Money(nav: real, weight: real): real {
    nav * weight
  }

  /** A session's return earns on every position what its own return says, and nothing on cash: neither
      weights nor NAV can drift without the other. */
  lemma {:induction false} ReturnKeepsMoney(held: Vec, r: Vec, nav: real)
    requires |held| == |r| && Growth(held, r) > 0.0
    ensures var g := Growth(held, r);
      var nav', after := GrownNav(nav, g), Drifted(held, r, g);
      && (forall j :: 0 <= j < |r| ==> Money(nav', after[j]) == Money(nav, held[j]) * (1.0 + r[j]))
      && Cash(nav', after) == Cash(nav, held)
  {
    var g := Growth(held, r);
    hide Growth, Dot, Drifted, Sum, Scales, Cash, Money, GrownNav;
    ScaledSum(held, r, g);
    CashOf(held, r, nav, g);
    MoneyGrows(held, r, nav, g);
  }

  lemma MoneyGrows(held: Vec, r: Vec, nav: real, g: real)
    requires |held| == |r| && g > 0.0
    ensures forall j :: 0 <= j < |r| ==> Money(GrownNav(nav, g), Drifted(held, r, g)[j]) == Money(nav, held[j]) * (1.0 + r[j])
  {
    hide Drifted, Money, Grown, GrownNav;
    forall j | 0 <= j < |r|
      ensures Money(GrownNav(nav, g), Drifted(held, r, g)[j]) == Money(nav, held[j]) * (1.0 + r[j])
    {
      DriftedAt(held, r, g, j);
      MoneyOf(nav, g, held[j], r[j]);
    }
  }

  lemma CashOf(held: Vec, r: Vec, nav: real, g: real)
    requires |held| == |r| && g > 0.0 && g == Growth(held, r) && Scales(held, r, g)
    ensures Cash(GrownNav(nav, g), Drifted(held, r, g)) == Cash(nav, held)
  {
    hide Dot, Drifted, Sum;
    CashOfParts(nav, g, Sum(held), Dot(held, r), Sum(Drifted(held, r, g)));
  }

  lemma MoneyOf(nav: real, g: real, h: real, r: real)
    requires g > 0.0
    ensures Money(GrownNav(nav, g), Grown(h, r, g)) == Money(nav, h) * (1.0 + r)
  {
    GrownTimes(h, r, g);
    assert nav * h * (1.0 + r) == nav * (h + h * r);
    hide Grown;
    Regroup(nav, g, Grown(h, r, g), h + h * r);
  }

  lemma Regroup(nav: real, g: real, q: real, e: real)
    requires q * g == e
    ensures (nav * g) * q == nav * e
  {
    assert (nav * g) * q == nav * (g * q);
  }

  lemma CashOfParts(nav: real, g: real, before: real, dot: real, after: real)
    requires g == 1.0 + dot && after * g == before + dot
    ensures (nav * g) * (1.0 - after) == nav * (1.0 - before)
  {
    assert (nav * g) * (1.0 - after) == nav * (g - after * g);
  }

  /** Between two closes, before the later one's trades: every position earned its own return and the cash
      stayed what it was. */
  ghost predicate KeepsMoney(before: Row, row: Row, rets: Vec) {
    && |before.weights| == |row.weights| == |row.trades| == |rets|
    && var nav := GrownNav(before.nav, Growth(before.weights, rets));
       var carried := Minus(row.weights, row.trades);
       && (forall j :: 0 <= j < |rets| ==> Money(nav, carried[j]) == Money(before.nav, before.weights[j]) * (1.0 + rets[j]))
       && Cash(nav, carried) == Cash(before.nav, before.weights)
  }

  lemma CarriedIsDrifted(before: Row, row: Row, rets: Vec)
    requires |before.weights| == |row.weights| == |row.trades| == |rets| && Growth(before.weights, rets) > 0.0
    requires forall j :: 0 <= j < |rets| ==>
      row.trades[j] == row.weights[j] - before.weights[j] * (1.0 + rets[j]) / Growth(before.weights, rets)
    ensures Minus(row.weights, row.trades) == Drifted(before.weights, rets, Growth(before.weights, rets))
  {
    var g := Growth(before.weights, rets);
    hide Growth;
    forall j | 0 <= j < |rets|
      ensures Minus(row.weights, row.trades)[j] == Drifted(before.weights, rets, g)[j]
    {
      DriftedAt(before.weights, rets, g, j);
      assert Grown(before.weights[j], rets[j], g) == before.weights[j] * (1.0 + rets[j]) / g;
      hide Grown;
    }
  }

  lemma CarriedKeepsMoney(before: Row, row: Row, rets: Vec)
    requires |before.weights| == |row.weights| == |row.trades| == |rets| && Growth(before.weights, rets) > 0.0
    requires Minus(row.weights, row.trades) == Drifted(before.weights, rets, Growth(before.weights, rets))
    ensures KeepsMoney(before, row, rets)
  {
    hide Growth, Minus, Drifted, Cash, Money, GrownNav;
    var g := Growth(before.weights, rets);
    var nav, carried := GrownNav(before.nav, g), Minus(row.weights, row.trades);
    ReturnKeepsMoney(before.weights, rets, before.nav);
    assert carried == Drifted(before.weights, rets, g);
  }

  /** Over every run of the plain simulator. */
  lemma {:induction false} BudgetedKeepsMoney(x: Inputs, mask: seq<bool>, n: nat, k: nat)
    requires x.Valid() && BudgetedRun(x, mask, n).Alive? && 0 < k < n
    ensures var rows := BudgetedRun(x, mask, n).rows; KeepsMoney(rows[k - 1], rows[k], Filled(x.closeRel, k, x.m))
  {
    hide BudgetedRun, KeepsMoney, Growth, Filled;
    RowsFollow(x, mask, n, k);
    var rows := BudgetedRun(x, mask, n).rows;
    CarriedIsDrifted(rows[k - 1], rows[k], Filled(x.closeRel, k, x.m));
    CarriedKeepsMoney(rows[k - 1], rows[k], Filled(x.closeRel, k, x.m));
  }
}
