/** The stop simulator against two simpler machines: the plain sleeve, and a stop rule stated in prices. */
module StopRefinement {
  import opened Wrappers
  import opened Vectors
  import opened SleeveBook
  import opened CatastropheStops
  import opened StopMarkets

  // ------------------------------------------------------------------ no session low: the plain sleeve

  ghost predicate NoLows(x: Inputs) {
    forall i: nat, j: nat :: x.lowRel(i, j).None?
  }

  predicate NeverCooled(s: StopBook) {
    forall j :: 0 <= j < |s.coolUntil| ==> s.coolUntil[j] == -1
  }

  lemma {:induction false} QuietDay(x: Inputs, s: StopBook, i: nat)
    requires x.Valid() && s.Sound(x.m) && NoLows(x) && NeverCooled(s)
    ensures var stop, plain := StopDay(x, s, i), BudgetedDay(x, AllOf(x.m), s.book, i);
      && stop.Alive? == plain.Alive?
      && (stop.Ruined? ==> stop.day == plain.day)
      && (stop.Alive? ==> stop.state.book == plain.state && stop.rows == plain.rows && NeverCooled(stop.state))
  {
    hide Growth, Fill, Decisions, RowOf;
    var stopped := if i > 0 then StoppedMask(x, s, i) else Nowhere(x.m);
    assert !Any(stopped);
    assert DayReturns(x, s, i) == Filled(x.closeRel, i, x.m);
    assert Cooled(s.coolUntil, i, Filled(x.targets, i, x.m)) == Filled(x.targets, i, x.m);
    assert Cooled(s.coolUntil, i, Filled(x.levels, i, x.m)) == Filled(x.levels, i, x.m);
    var growth := if i > 0 then Growth(s.book.held, DayReturns(x, s, i)) else 1.0;
    if growth > 0.0 {
      var moved := if i > 0 then StopDrift(s, DayReturns(x, s, i), growth) else s;
      var sale := Sell(x, moved.book, stopped);
      assert Disarm(x, moved, stopped, i, sale.book) == moved;
      var fill := Fill(x, moved.book);
      assert Plus(sale.dw, fill.dw) == fill.dw;
    }
  }

  /** With no session low the two simulators produce the same weights, NAV, trades, costs and orders
      on every session, and fail on the same one. */
  lemma {:induction false} WithoutLowsAPlainSleeve(x: Inputs, n: nat)
    requires x.Valid() && NoLows(x)
    ensures var stop, plain := StopRun(x, n), BudgetedRun(x, AllOf(x.m), n);
      && stop.Alive? == plain.Alive?
      && (stop.Ruined? ==> stop.day == plain.day)
      && (stop.Alive? ==> stop.state.book == plain.state && stop.rows == plain.rows && NeverCooled(stop.state))
  {
    hide StopDay, BudgetedDay;
    if n > 0 {
      WithoutLowsAPlainSleeve(x, n - 1);
      if StopRun(x, n - 1).Alive? {
        QuietDay(x, StopRun(x, n - 1).state, n - 1);
      }
    }
  }

  // ------------------------------------------------------------------ a stop rule stated in prices

  /** An open position's entry close and the distance of its stop. */
  datatype Entry = Entry(price: real, dist: real) {
    function StopPrice(): real {
      price * (1.0 - dist)
    }

    /** The open when it gaps through the stop, else the stop. */
    function FillPrice(open: Option<real>): real {
      if open.Some? && open.value < StopPrice() then open.value else StopPrice()
    }
  }

  /** The reference machine: it remembers the entry close of each position, never a ratio. */
  datatype PriceBook = PriceBook(book: Book, entry: seq<Option<Entry>>, coolUntil: seq<int>, hits: nat) {
    predicate Shaped(m: nat) {
      book.Shaped(m) && |entry| == m && |coolUntil| == m
    }
  }

  function PriceOpening(m: nat): (p: PriceBook)
    ensures p.Shaped(m)
  {
    PriceBook(EmptyBook(m), seq(m, _ => None), seq(m, _ => -1), 0)
  }

  /** A stop fires when the low of a name with a close before it reaches the stop price. */
  function PriceStopped(x: Inputs, mk: Market, p: PriceBook, i: nat): (mask: seq<bool>)
    requires p.Shaped(x.m) && i > 0
    ensures |mask| == x.m
    ensures forall j :: 0 <= j < x.m && mask[j] ==> p.entry[j].Some?
  {
    seq(x.m, j requires 0 <= j < x.m =>
      p.book.held[j] > 0.0 && p.entry[j].Some? && mk.low(i, j).Some? && mk.Quoted(i - 1, j) &&
      mk.low(i, j).value <= p.entry[j].value.StopPrice())
  }

  function PriceReturns(x: Inputs, mk: Market, p: PriceBook, i: nat): (r: Vec)
    requires p.Shaped(x.m) && mk.Valid() && i > 0
    ensures |r| == x.m
  {
    var stopped := PriceStopped(x, mk, p, i);
    seq(x.m, j requires 0 <= j < x.m =>
      assert mk.ValidAt(i - 1, j);
      Rel(if stopped[j] then p.entry[j].value.FillPrice(mk.open(i, j)) else mk.price(i, j), mk.price(i - 1, j)))
  }

  /** A stop and an empty position carry no entry; a fill that opens a position enters it at the close;
      a top-up or a trim leaves the entry alone. */
  function NextEntry(x: Inputs, mk: Market, i: nat, j: nat, stopped: bool, fills: bool,
                     before: real, after: real, entry: Option<Entry>): Option<Entry> {
    if stopped then None
    else if !fills then entry
    else if after <= 0.0 then None
    else if before <= 0.0 then Some(Entry(mk.price(i, j), x.rule.Distance(x.sigma(i, j))))
    else entry
  }

  /** Sale and fill of one session, on the drifted book. */
  function PriceTrade(x: Inputs, mk: Market, p: PriceBook, stopped: seq<bool>, i: nat): (r: (PriceBook, Vec, real))
    requires x.Valid() && p.Shaped(x.m) && |stopped| == x.m
    ensures r.0.Shaped(x.m) && |r.1| == x.m
  {
    var sale := Sell(x, p.book, stopped);
    var fill := Fill(x, sale.book);
    var coolUntil := seq(x.m, j requires 0 <= j < x.m =>
      if stopped[j] then i + x.rule.reentrySessions else p.coolUntil[j]);
    var entry := seq(x.m, j requires 0 <= j < x.m =>
      NextEntry(x, mk, i, j, stopped[j], Any(sale.book.pending), sale.book.held[j], fill.book.held[j], p.entry[j]));
    (PriceBook(fill.book, entry, coolUntil, p.hits + Count(stopped)), Plus(sale.dw, fill.dw), sale.cost + fill.cost)
  }

  function PriceDay(x: Inputs, mk: Market, p: PriceBook, i: nat): (r: Run<PriceBook>)
    requires x.Valid() && p.Shaped(x.m) && mk.Valid()
    ensures r.Alive? ==> r.state.Shaped(x.m) && |r.rows| == 1
  {
    var stopped := if i > 0 then PriceStopped(x, mk, p, i) else Nowhere(x.m);
    var rets := if i > 0 then PriceReturns(x, mk, p, i) else Zeros(x.m);
    var growth := if i > 0 then Growth(p.book.held, rets) else 1.0;
    if growth <= 0.0 then Ruined(i) else
    var moved := if i > 0 then p.(book := Drift(p.book, rets, growth)) else p;
    var (traded, dw, cost) := PriceTrade(x, mk, moved, stopped, i);
    var book := Decide(x, traded.book, i, AllOf(x.m), Cooled(traded.coolUntil, i, Filled(x.targets, i, x.m)),
                       Cooled(traded.coolUntil, i, Filled(x.levels, i, x.m)));
    Alive(traded.(book := book), [RowOf(book, dw, cost)])
  }

  function PriceRun(x: Inputs, mk: Market, n: nat): (r: Run<PriceBook>)
    requires x.Valid() && mk.Valid()
    ensures r.Alive? ==> r.state.Shaped(x.m) && |r.rows| == n
  {
    if n == 0 then Alive(PriceOpening(x.m), []) else
    var before := PriceRun(x, mk, n - 1);
    if before.Ruined? then before else
    var day := PriceDay(x, mk, before.state, n - 1);
    if day.Ruined? then day else Alive(day.state, before.rows + day.rows)
  }

  /** A column's relative stop and its entry describe one stop: the ratio is price over entry. */
  ghost predicate SameStop(dist: Option<real>, ratio: real, entry: Option<Entry>, price: real) {
    && dist.Some? == entry.Some?
    && (dist.Some? ==> entry.value.price > 0.0 && entry.value.dist == dist.value && ratio * entry.value.price == price)
  }

  /** The simulation relation after session `i - 1`. */
  ghost predicate Matches(x: Inputs, mk: Market, s: StopBook, p: PriceBook, i: nat)
    requires s.Sound(x.m) && p.Shaped(x.m)
  {
    && s.book == p.book && s.coolUntil == p.coolUntil && s.hits == p.hits
    && forall j :: 0 <= j < x.m ==>
         SameStop(s.dist[j], s.ratio[j], p.entry[j], if i == 0 then 1.0 else mk.price(i - 1, j))
         && (i == 0 ==> s.dist[j].None?)
  }

  /** The relative stop is the stop price relative to the previous close. */
  lemma StopRelIsStopPrice(e: Entry, ratio: real, before: real)
    requires e.price > 0.0 && before > 0.0 && ratio * e.price == before && ratio != 0.0
    ensures StopRel(e.dist, ratio) == Rel(e.StopPrice(), before)
  {
    var q := (1.0 - e.dist) / ratio;
    assert q * ratio == 1.0 - e.dist;
    assert q * before == (q * ratio) * e.price;
    assert e.StopPrice() / before * before == q * before;
    assert (e.StopPrice() / before - q) * before == 0.0;
  }

  /** The relative test fires exactly when the low reaches the stop price, and fills at the price the
      rule names. */
  lemma SameTrigger(e: Entry, ratio: real, before: real, low: real, open: Option<real>)
    requires e.price > 0.0 && before > 0.0 && ratio * e.price == before && ratio != 0.0
    ensures Rel(low, before) <= StopRel(e.dist, ratio) <==> low <= e.StopPrice()
    ensures FillRel(if open.Some? then Some(Rel(open.value, before)) else None, StopRel(e.dist, ratio))
            == Rel(e.FillPrice(open), before)
  {
    StopRelIsStopPrice(e, ratio, before);
    QuotientOrder(low, e.StopPrice(), before);
    if open.Some? {
      QuotientOrder(open.value, e.StopPrice(), before);
      QuotientOrder(e.StopPrice(), open.value, before);
    }
  }

  lemma SameStopsFire(x: Inputs, mk: Market, s: StopBook, p: PriceBook, i: nat)
    requires x.Valid() && mk.Valid() && Derived(x, mk) && i > 0
    requires s.Sound(x.m) && p.Shaped(x.m) && Matches(x, mk, s, p, i)
    ensures StoppedMask(x, s, i) == PriceStopped(x, mk, p, i)
    ensures DayReturns(x, s, i) == PriceReturns(x, mk, p, i)
  {
    hide StopRel, Rel, Entry.StopPrice, Entry.FillPrice, FillRel;
    forall j | 0 <= j < x.m
      ensures StoppedMask(x, s, i)[j] == PriceStopped(x, mk, p, i)[j]
      ensures DayReturns(x, s, i)[j] == PriceReturns(x, mk, p, i)[j]
    {
      var before := mk.price(i - 1, j);
      assert DerivedAt(x, mk, i, j) && mk.ValidAt(i - 1, j);
      ReturnIsPriceMove(x, mk, i, j);
      assert SameStop(s.dist[j], s.ratio[j], p.entry[j], before);
      if Armed(s, x.lowRel(i, j), j) {
        SameTrigger(p.entry[j].value, s.ratio[j], before, mk.low(i, j).value, mk.open(i, j));
      }
    }
  }

  lemma RatioFollowsPrice(ratio: real, entry: real, before: real, after: real)
    requires before > 0.0 && ratio * entry == before
    ensures ratio * (1.0 + Rel(after, before)) * entry == after
  {
    var q := after / before;
    assert q * before == after;
    assert ratio * q * entry == q * (ratio * entry);
  }

  lemma SameTrade(x: Inputs, mk: Market, s: StopBook, p: PriceBook, stopped: seq<bool>, i: nat)
    requires x.Valid() && s.Sound(x.m) && p.Shaped(x.m) && mk.Valid() && |stopped| == x.m
    requires s.book == p.book && s.coolUntil == p.coolUntil && s.hits == p.hits
    requires forall j :: 0 <= j < x.m && !stopped[j] ==> SameStop(s.dist[j], s.ratio[j], p.entry[j], mk.price(i, j))
    ensures var stop, price := StopTrade(x, s, stopped, i), PriceTrade(x, mk, p, stopped, i);
      && stop.1 == price.1 && stop.2 == price.2
      && Matches(x, mk, stop.0, price.0, i + 1)
  {
    hide Fill, Charge, Plus, SameStop, Sell, NextEntry, Any, Opened, StopRule.Distance;
    var sale := Sell(x, s.book, stopped);
    var sold := Disarm(x, s, stopped, i, sale.book);
    var stop, price := StopTrade(x, s, stopped, i).0, PriceTrade(x, mk, p, stopped, i).0;
    assert sold.coolUntil == price.coolUntil && sold.hits == price.hits by {
      NoneStopped(stopped);
    }
    forall j | 0 <= j < x.m
      ensures SameStop(stop.dist[j], stop.ratio[j], price.entry[j], mk.price(i, j))
    {
      SameColumn(x, mk, s, p.entry[j], stopped, i, j);
    }
  }

  lemma {:induction false} SameDay(x: Inputs, mk: Market, s: StopBook, p: PriceBook, i: nat)
    requires x.Valid() && mk.Valid() && Derived(x, mk)
    requires s.Sound(x.m) && p.Shaped(x.m) && Matches(x, mk, s, p, i)
    ensures var stop, price := StopDay(x, s, i), PriceDay(x, mk, p, i);
      && stop.Alive? == price.Alive?
      && (stop.Ruined? ==> stop.day == price.day)
      && (stop.Alive? ==> stop.rows == price.rows && Matches(x, mk, stop.state, price.state, i + 1))
  {
    hide Growth, RowOf, StoppedMask, PriceStopped, DayReturns, PriceReturns, StopTrade, PriceTrade, Decide, SameStop,
         Scaled, Nowhere, Zeros, Drift, Cooled, Filled, AllOf, Derived;
    if i > 0 {
      SameStopsFire(x, mk, s, p, i);
    }
    var stopped := if i > 0 then StoppedMask(x, s, i) else Nowhere(x.m);
    var rets := DayReturns(x, s, i);
    var growth := if i > 0 then Growth(s.book.held, rets) else 1.0;
    if growth > 0.0 {
      var moved := if i > 0 then StopDrift(s, rets, growth) else s;
      var movedP := if i > 0 then p.(book := Drift(p.book, rets, growth)) else p;
      forall j | 0 <= j < x.m && !stopped[j]
        ensures SameStop(moved.dist[j], moved.ratio[j], movedP.entry[j], mk.price(i, j))
      {
        if i > 0 {
          MovedColumn(x, mk, s, p, i, j);
        } else {
          NoStopAtStart(moved.dist[j], moved.ratio[j], p.entry[j], mk.price(i, j));
        }
      }
      SameTrade(x, mk, moved, movedP, stopped, i);
    }
  }

  lemma NoStopAtStart(dist: Option<real>, ratio: real, entry: Option<Entry>, price: real)
    requires dist.None? && SameStop(dist, ratio, entry, 1.0)
    ensures SameStop(dist, ratio, entry, price)
  {
  }

  lemma MovedColumn(x: Inputs, mk: Market, s: StopBook, p: PriceBook, i: nat, j: nat)
    requires x.Valid() && mk.Valid() && Derived(x, mk) && i > 0 && j < x.m
    requires s.Sound(x.m) && p.Shaped(x.m) && Matches(x, mk, s, p, i) && !StoppedMask(x, s, i)[j]
    ensures SameStop(s.dist[j], Scaled(s.ratio, DayReturns(x, s, i))[j], p.entry[j], mk.price(i, j))
  {
    hide Rel;
    ReturnIsPriceMove(x, mk, i, j);
    if s.dist[j].Some? {
      RatioFollowsPrice(s.ratio[j], p.entry[j].value.price, mk.price(i - 1, j), mk.price(i, j));
    }
  }

  lemma SameColumn(x: Inputs, mk: Market, moved: StopBook, entry: Option<Entry>, stopped: seq<bool>, i: nat, j: nat)
    requires x.Valid() && mk.Valid() && moved.Sound(x.m) && |stopped| == x.m && j < x.m
    requires !stopped[j] ==> SameStop(moved.dist[j], moved.ratio[j], entry, mk.price(i, j))
    ensures var sale := Sell(x, moved.book, stopped);
      var fill := Fill(x, sale.book);
      var s' := Rearm(x, Disarm(x, moved, stopped, i, sale.book), i, fill.book);
      SameStop(s'.dist[j], s'.ratio[j],
               NextEntry(x, mk, i, j, stopped[j], Any(sale.book.pending), sale.book.held[j], fill.book.held[j], entry),
               mk.price(i, j))
  {
    hide Charge, StopRule.Distance, Count;
    assert mk.ValidAt(i, j);
    var sale := Sell(x, moved.book, stopped);
    if stopped[j] {
      assert Any(stopped) && !sale.book.pending[j];
    }
  }

  lemma OpeningsMatch(x: Inputs, mk: Market)
    requires x.Valid()
    ensures Matches(x, mk, Opening(x.m), PriceOpening(x.m), 0)
  {
  }

  /** For every market, the relative stop simulator is the price rule: on every session the same columns
      stop at the same fills, so the whole path agrees, and each ratio is price over entry close. */
  lemma {:induction false} StopsFollowPriceRule(x: Inputs, mk: Market, n: nat)
    requires x.Valid() && mk.Valid() && Derived(x, mk)
    ensures var stop, price := StopRun(x, n), PriceRun(x, mk, n);
      && stop.Alive? == price.Alive?
      && (stop.Ruined? ==> stop.day == price.day)
      && (stop.Alive? ==> stop.rows == price.rows && Matches(x, mk, stop.state, price.state, n))
  {
    hide StopDay, PriceDay, Matches, Derived, Opening, PriceOpening, SameSign, Market.Valid;
    if n == 0 {
      OpeningsMatch(x, mk);
    } else {
      StopsFollowPriceRule(x, mk, n - 1);
      if StopRun(x, n - 1).Alive? {
        SameDay(x, mk, StopRun(x, n - 1).state, PriceRun(x, mk, n - 1).state, n - 1);
      }
    }
  }

  /** What a stop costs since the entry: its distance exactly, unless the open gapped through it, and
      then more. */
  lemma LossAtTheStop(e: Entry, open: Option<real>)
    requires e.price > 0.0
    ensures Rel(e.FillPrice(open), e.price) <= -e.dist
    ensures Rel(e.FillPrice(open), e.price) == -e.dist <==> open.None? || open.value >= e.StopPrice()
  {
    var q := e.FillPrice(open) / e.price;
    assert q * e.price == e.FillPrice(open);
    var d := (q - (1.0 - e.dist)) * e.price;
    assert d == e.FillPrice(open) - e.StopPrice();
  }

  lemma {:induction false} NoneStopped(mask: seq<bool>)
    ensures !Any(mask) ==> Count(mask) == 0 && forall j :: 0 <= j < |mask| ==> !mask[j]
  {
    if |mask| > 0 && !Any(mask) {
      assert !mask[|mask| - 1];
      assert !Any(mask[..|mask| - 1]) by {
        assert forall j :: 0 <= j < |mask| - 1 ==> mask[..|mask| - 1][j] == mask[j];
      }
      NoneStopped(mask[..|mask| - 1]);
    }
  }
}
