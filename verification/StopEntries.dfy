/** Where a run's stops come from: the close that last opened the position, and what a stop loses since then. */
module StopEntries {
  import opened Wrappers
  import opened SleeveBook
  import opened CatastropheStops
  import opened StopTheorems
  import opened StopMarkets
  import StopRefinement

  /** Session `k` of a run opened a position in the column. */
  predicate OpenedOn(x: Inputs, k: nat, j: nat)
    requires x.Valid() && j < x.m
  {
    StopRun(x, k + 1).Alive? && Opens(x, StopRun(x, k).state, k, j)
  }

  predicate StoppedIn(x: Inputs, k: nat, j: nat)
    requires x.Valid() && j < x.m
  {
    StopRun(x, k).Alive? && StoppedOn(x, StopRun(x, k).state, k)[j]
  }

  /** What one unit held over the sessions `a` to `b - 1` grows to. */
  function Since(x: Inputs, j: nat, a: nat, b: nat): real
    requires a <= b
    decreases b
  {
    if a == b then 1.0 else Since(x, j, a, b - 1) * (1.0 + OrZero(x.closeRel(b - 1, j)))
  }

  /** Session `k` is the last before `n` that opened the column's position, and nothing stopped it since. */
  ghost predicate LastOpening(x: Inputs, n: nat, j: nat, k: nat)
    requires x.Valid() && j < x.m
  {
    k < n && OpenedOn(x, k, j) && forall l :: k < l < n ==> !OpenedOn(x, l, j) && !StoppedIn(x, l, j)
  }

  /** A stop carried at a session's close was set there, or was carried in. */
  lemma {:induction false} StopAfterSession(x: Inputs, s: StopBook, i: nat, j: nat)
    requires x.Valid() && s.Sound(x.m) && j < x.m && StopDay(x, s, i).Alive? && StopDay(x, s, i).state.dist[j].Some?
    ensures !StoppedOn(x, s, i)[j]
    ensures var s' := StopDay(x, s, i).state;
      if Opens(x, s, i, j) then s'.dist[j] == Some(x.rule.Distance(x.sigma(i, j))) && s'.ratio[j] == 1.0
      else s.dist[j] == s'.dist[j] &&
           (i > 0 ==> s'.ratio[j] == s.ratio[j] * (1.0 + OrZero(x.closeRel(i, j))))
  {
    hide StopDay, Growth, StopRule.Distance, StoppedOn, Fills, Carried;
    ColumnDay(x, s, i, j);
    ColumnStop(x, s, i, j);
  }

  lemma {:induction false} StopOverSession(x: Inputs, n: nat, j: nat)
    requires x.Valid() && StopRun(x, n + 1).Alive? && j < x.m && StopRun(x, n + 1).state.dist[j].Some?
    ensures StopRun(x, n).Alive? && !StoppedIn(x, n, j)
    ensures var s, s' := StopRun(x, n).state, StopRun(x, n + 1).state;
      if OpenedOn(x, n, j) then s'.dist[j] == Some(x.rule.Distance(x.sigma(n, j))) && s'.ratio[j] == 1.0
      else n > 0 && s.dist[j] == s'.dist[j] && s'.ratio[j] == s.ratio[j] * (1.0 + OrZero(x.closeRel(n, j)))
  {
    hide StopDay, StopRule.Distance, Opens, StoppedOn;
    var s := StopRun(x, n).state;
    assert StopRun(x, n + 1).state == StopDay(x, s, n).state;
    StopAfterSession(x, s, n, j);
    if n == 0 {
      assert s.dist[j].None?;
    }
  }

  /** Every stop carried at a close of a run is the one its column's last opening set: the distance is that
      session's, and the ratio is the growth since that session's close, whatever was added or trimmed since. */
  lemma {:induction false} StopIsOfLastOpening(x: Inputs, n: nat, j: nat) returns (k: nat)
    requires x.Valid() && StopRun(x, n).Alive? && j < x.m && StopRun(x, n).state.dist[j].Some?
    ensures k < n && LastOpening(x, n, j, k)
    ensures var s := StopRun(x, n).state;
      s.dist[j] == Some(x.rule.Distance(x.sigma(k, j))) && s.ratio[j] == Since(x, j, k + 1, n)
  {
    hide StopRun, StopRule.Distance, OpenedOn, StoppedIn;
    NotAtStart(x, n, j);
    StopOverSession(x, n - 1, j);
    if OpenedOn(x, n - 1, j) {
      k := n - 1;
    } else {
      k := StopIsOfLastOpening(x, n - 1, j);
      hide LastOpening;
      StillLastOpening(x, n - 1, j, k);
    }
  }

  lemma StillLastOpening(x: Inputs, n: nat, j: nat, k: nat)
    requires x.Valid() && j < x.m && LastOpening(x, n, j, k) && !OpenedOn(x, n, j) && !StoppedIn(x, n, j)
    ensures LastOpening(x, n + 1, j, k)
  {
    hide OpenedOn, StoppedIn;
  }

  lemma NotAtStart(x: Inputs, n: nat, j: nat)
    requires x.Valid() && StopRun(x, n).Alive? && j < x.m && StopRun(x, n).state.dist[j].Some?
    ensures n > 0
  {
  }

  // ------------------------------------------------------------------ in prices

  lemma {:induction false} GrowthIsPriceMove(x: Inputs, mk: Market, j: nat, a: nat, b: nat)
    requires mk.Valid() && Derived(x, mk) && a < b
    ensures Since(x, j, a + 1, b) * mk.price(a, j) == mk.price(b - 1, j)
  {
    if b > a + 1 {
      GrowthIsPriceMove(x, mk, j, a, b - 1);
      ReturnIsPriceMove(x, mk, b - 1, j);
      hide Rel;
      StopRefinement.RatioFollowsPrice(Since(x, j, a + 1, b - 1), mk.price(a, j), mk.price(b - 2, j), mk.price(b - 1, j));
    }
  }

  /** In a market, a carried stop stands at the close of the last opening less the distance set there, and the
      machine that remembers entries carries exactly that entry. */
  lemma {:induction false} EntryIsOfLastOpening(x: Inputs, mk: Market, n: nat, j: nat) returns (k: nat)
    requires x.Valid() && mk.Valid() && Derived(x, mk) && j < x.m
    requires StopRun(x, n).Alive? && StopRun(x, n).state.dist[j].Some?
    ensures LastOpening(x, n, j, k) && mk.price(k, j) > 0.0 && mk.price(n - 1, j) > 0.0
    ensures StopRun(x, n).state.ratio[j] * mk.price(k, j) == mk.price(n - 1, j)
    ensures StopRun(x, n).state.dist[j] == Some(x.rule.Distance(x.sigma(k, j)))
    ensures StopRefinement.PriceRun(x, mk, n).Alive?
    ensures StopRefinement.PriceRun(x, mk, n).state.entry[j] ==
            Some(StopRefinement.Entry(mk.price(k, j), x.rule.Distance(x.sigma(k, j))))
  {
    hide StopRun, StopRefinement.PriceRun, LastOpening, Since;
    k := StopIsOfLastOpening(x, n, j);
    GrowthIsPriceMove(x, mk, j, k, n);
    assert mk.ValidAt(k, j) && mk.ValidAt(n - 1, j);
    StopRefinement.StopsFollowPriceRule(x, mk, n);
    var s, e := StopRun(x, n).state, StopRefinement.PriceRun(x, mk, n).state.entry[j];
    assert StopRefinement.SameStop(s.dist[j], s.ratio[j], e, mk.price(n - 1, j));
    SameFactor(s.ratio[j], mk.price(k, j), e.value.price);
  }

  lemma SameFactor(r: real, a: real, b: real)
    requires r * a == r * b && r * a != 0.0
    ensures a == b
  {
    assert r * (a - b) == 0.0;
  }

  /** A stopped column's return `r` is its fill's, and the fill loses exactly the stop's distance since the
      entry, unless the open gapped through it, and then more. */
  predicate LosesItsDistance(entry: StopRefinement.Entry, open: Option<real>, before: real, r: real)
    requires entry.price > 0.0 && before > 0.0
  {
    var loss := Rel(entry.FillPrice(open), entry.price);
    && r == Rel(entry.FillPrice(open), before)
    && loss <= -entry.dist
    && (loss == -entry.dist <==> open.None? || open.value >= entry.StopPrice())
  }

  /** The fill of a column a run stops, against the close that last opened it. */
  lemma {:induction false} StopLosesItsDistance(x: Inputs, mk: Market, n: nat, j: nat) returns (k: nat)
    requires x.Valid() && mk.Valid() && Derived(x, mk) && j < x.m && n > 0
    requires StopRun(x, n).Alive? && StoppedMask(x, StopRun(x, n).state, n)[j]
    ensures LastOpening(x, n, j, k) && mk.price(k, j) > 0.0 && mk.price(n - 1, j) > 0.0
    ensures LosesItsDistance(StopRefinement.Entry(mk.price(k, j), x.rule.Distance(x.sigma(k, j))), mk.open(n, j),
                             mk.price(n - 1, j), DayReturns(x, StopRun(x, n).state, n)[j])
  {
    hide StopRun, StopRefinement.PriceRun, LastOpening, StopRule.Distance;
    var s := StopRun(x, n).state;
    assert Armed(s, x.lowRel(n, j), j);
    k := EntryIsOfLastOpening(x, mk, n, j);
    StopRefinement.StopsFollowPriceRule(x, mk, n);
    var p := StopRefinement.PriceRun(x, mk, n).state;
    StopRefinement.SameStopsFire(x, mk, s, p, n);
    hide StoppedMask, DayReturns, Rel, StopRefinement.Entry.FillPrice, StopRefinement.Entry.StopPrice;
    StopRefinement.LossAtTheStop(p.entry[j].value, mk.open(n, j));
  }
}
