/** What every run of the stop simulator keeps. */
module StopTheorems {
  import opened Wrappers
  import opened Vectors
  import opened SleeveBook
  import opened CatastropheStops

  /** The columns stopped on session `i` of a run. */
  function StoppedOn(x: Inputs, s: StopBook, i: nat): (mask: seq<bool>)
    requires s.Sound(x.m)
    ensures |mask| == x.m
  {
    if i > 0 then StoppedMask(x, s, i) else Nowhere(x.m)
  }

  /** A column's weight after the session's return. */
  function Carried(x: Inputs, s: StopBook, i: nat, j: nat): real
    requires s.Sound(x.m) && j < x.m
    requires i > 0 ==> Growth(s.book.held, DayReturns(x, s, i)) > 0.0
  {
    if i == 0 then s.book.held[j]
    else s.book.held[j] * (1.0 + DayReturns(x, s, i)[j]) / Growth(s.book.held, DayReturns(x, s, i))
  }

  /** The book after the session's return, before its trades. */
  function Moved(x: Inputs, s: StopBook, i: nat): (m: StopBook)
    requires s.Sound(x.m)
    requires i > 0 ==> Growth(s.book.held, DayReturns(x, s, i)) > 0.0
    ensures m.Sound(x.m)
    ensures m.dist == s.dist && m.coolUntil == s.coolUntil && m.hits == s.hits
    ensures m.book.pending == s.book.pending && m.book.pendTarget == s.book.pendTarget
  {
    if i > 0 then StopDrift(s, DayReturns(x, s, i), Growth(s.book.held, DayReturns(x, s, i))) else s
  }

  lemma MovedColumn(x: Inputs, s: StopBook, i: nat, j: nat)
    requires s.Sound(x.m) && j < x.m
    requires i > 0 ==> Growth(s.book.held, DayReturns(x, s, i)) > 0.0
    ensures Moved(x, s, i).book.held[j] == Carried(x, s, i, j)
    ensures Moved(x, s, i).ratio[j] == if i > 0 then s.ratio[j] * (1.0 + DayReturns(x, s, i)[j]) else s.ratio[j]
  {
    hide Growth, DayReturns, SameSign;
  }

  /** The book after the sale of the stopped columns. */
  function SoldBook(x: Inputs, m: StopBook, stopped: seq<bool>, i: nat): (s: StopBook)
    requires x.Valid() && m.Sound(x.m) && |stopped| == x.m
    ensures s.Sound(x.m)
  {
    Disarm(x, m, stopped, i, Sell(x, m.book, stopped).book)
  }

  lemma SaleOfColumn(x: Inputs, m: StopBook, stopped: seq<bool>, i: nat, j: nat)
    requires x.Valid() && m.Sound(x.m) && |stopped| == x.m && j < x.m
    ensures var s := SoldBook(x, m, stopped, i);
      && s.book == Sell(x, m.book, stopped).book
      && s.book.pending == Except(m.book.pending, stopped) && s.book.pendTarget == m.book.pendTarget
      && s.ratio == m.ratio
      && (stopped[j] ==> s.book.held[j] == 0.0 && s.dist[j].None? && s.coolUntil[j] == i + x.rule.reentrySessions)
      && (!stopped[j] ==> s.book.held[j] == m.book.held[j] && s.dist[j] == m.dist[j] && s.coolUntil[j] == m.coolUntil[j])
  {
    hide Charge, Count, SameSign;
    if Any(stopped) {
    } else {
      assert Except(m.book.pending, stopped) == m.book.pending;
    }
  }

  lemma FillOfColumn(x: Inputs, s: StopBook, i: nat, j: nat)
    requires x.Valid() && s.Sound(x.m) && j < x.m
    ensures var b := Fill(x, s.book).book;
      var armed := Rearm(x, s, i, b);
      && armed.book == b && armed.coolUntil == s.coolUntil
      && b.held[j] == (if s.book.pending[j] then s.book.pendTarget[j] else s.book.held[j])
      && (!Any(s.book.pending) ==> armed.dist[j] == s.dist[j] && armed.ratio[j] == s.ratio[j])
      && (Any(s.book.pending) ==>
           var opens := s.book.held[j] <= 0.0 && b.held[j] > 0.0;
           && armed.dist[j] == (if b.held[j] <= 0.0 then None
                                else if opens then Some(x.rule.Distance(x.sigma(i, j))) else s.dist[j])
           && armed.ratio[j] == if opens then 1.0 else s.ratio[j])
  {
    hide Charge, NonZero, Minus, SameSign, StopRule.Distance;
  }

  /** A session is its return, its sale, its fill and its orders. */
  lemma SessionParts(x: Inputs, s: StopBook, i: nat)
    requires x.Valid() && s.Sound(x.m) && StopDay(x, s, i).Alive?
    ensures i > 0 ==> Growth(s.book.held, DayReturns(x, s, i)) > 0.0
    ensures var sold := SoldBook(x, Moved(x, s, i), StoppedOn(x, s, i), i);
      var traded := Rearm(x, sold, i, Fill(x, sold.book).book);
      StopDay(x, s, i).state == traded.(book := StopDecide(x, traded, i))
  {
    hide Growth, DayReturns, StoppedMask, StopDrift, Sell, Fill, Disarm, Rearm, StopDecide, Plus, RowOf, SameSign, Nowhere;
  }

  /** One column through one session. */
  lemma {:induction false} ColumnDay(x: Inputs, s: StopBook, i: nat, j: nat)
    requires x.Valid() && s.Sound(x.m) && j < x.m && StopDay(x, s, i).Alive?
    ensures i > 0 ==> Growth(s.book.held, DayReturns(x, s, i)) > 0.0
    ensures var s', stopped, b := StopDay(x, s, i).state, StoppedOn(x, s, i)[j], s.book;
      && (stopped ==> s'.book.held[j] == 0.0 && s'.dist[j].None? && s'.coolUntil[j] == i + x.rule.reentrySessions)
      && (!stopped ==>
           && s'.book.held[j] == (if b.pending[j] then b.pendTarget[j] else Carried(x, s, i, j))
           && s'.coolUntil[j] == s.coolUntil[j])
      && (s'.book.pendTarget[j] == if s'.coolUntil[j] >= i then 0.0 else OrZero(x.targets(i, j)))
  {
    SessionParts(x, s, i);
    var m, stopped := Moved(x, s, i), StoppedOn(x, s, i);
    MovedColumn(x, s, i, j);
    SaleOfColumn(x, m, stopped, i, j);
    var sold := SoldBook(x, m, stopped, i);
    FillOfColumn(x, sold, i, j);
    OrderedTarget(x, Rearm(x, sold, i, Fill(x, sold.book).book), i, j);
    hide StopDay, Growth, Carried, StoppedOn, DayReturns, Moved, SoldBook, Rearm, Fill, StopDecide, Any, SameSign;
  }

  lemma OrderedTarget(x: Inputs, s: StopBook, i: nat, j: nat)
    requires s.Shaped(x.m) && j < x.m
    ensures StopDecide(x, s, i).pendTarget[j] == if s.coolUntil[j] >= i then 0.0 else OrZero(x.targets(i, j))
  {
    hide Decisions, Line;
  }

  lemma SessionTrades(x: Inputs, s: StopBook, i: nat)
    requires x.Valid() && s.Sound(x.m) && StopDay(x, s, i).Alive?
    ensures i > 0 ==> Growth(s.book.held, DayReturns(x, s, i)) > 0.0
    ensures var sale := Sell(x, Moved(x, s, i).book, StoppedOn(x, s, i));
      StopDay(x, s, i).rows[0].trades == Plus(sale.dw, Fill(x, sale.book).dw)
  {
    hide Growth, DayReturns, StoppedMask, StopDrift, Sell, Fill, Rearm, StopDecide, Plus, SameSign, Nowhere;
  }

  lemma SaleTrade(x: Inputs, b: Book, stopped: seq<bool>, j: nat)
    requires x.Valid() && b.Shaped(x.m) && |stopped| == x.m && j < x.m
    ensures Sell(x, b, stopped).dw[j] == Sell(x, b, stopped).book.held[j] - b.held[j]
  {
    hide Charge, Any;
  }

  lemma FillTrade(x: Inputs, b: Book, j: nat)
    requires x.Valid() && b.Shaped(x.m) && j < x.m
    ensures Fill(x, b).dw[j] == Fill(x, b).book.held[j] - b.held[j]
  {
    hide Charge, Any, NonZero;
  }

  /** The trade a session reports for a column is the change of its drifted weight, sale and fill together. */
  lemma {:induction false} ColumnTrade(x: Inputs, s: StopBook, i: nat, j: nat)
    requires x.Valid() && s.Sound(x.m) && j < x.m && StopDay(x, s, i).Alive?
    ensures i > 0 ==> Growth(s.book.held, DayReturns(x, s, i)) > 0.0
    ensures var row := StopDay(x, s, i).rows[0];
      |row.trades| == x.m && row.trades[j] == StopDay(x, s, i).state.book.held[j] - Carried(x, s, i, j)
  {
    hide StopDay, DayReturns, StoppedOn, Growth, Carried, Moved, SoldBook, Sell, Fill, Rearm, StopDecide, SameSign;
    SessionParts(x, s, i);
    SessionTrades(x, s, i);
    MovedColumn(x, s, i, j);
    var m, stopped := Moved(x, s, i), StoppedOn(x, s, i);
    var sale := Sell(x, m.book, stopped);
    SaleOfColumn(x, m, stopped, i, j);
    FillOfColumn(x, SoldBook(x, m, stopped, i), i, j);
    SaleTrade(x, m.book, stopped, j);
    FillTrade(x, sale.book, j);
  }

  /** Some pending order of the session fills: one of a column that was not stopped. */
  predicate Fills(x: Inputs, s: StopBook, i: nat)
    requires s.Sound(x.m)
  {
    Any(Except(s.book.pending, StoppedOn(x, s, i)))
  }

  /** Session `i` opens a position in the column: a fill takes it from no weight to some. */
  predicate Opens(x: Inputs, s: StopBook, i: nat, j: nat)
    requires x.Valid() && s.Sound(x.m) && j < x.m && StopDay(x, s, i).Alive?
  {
    SessionParts(x, s, i);
    !StoppedOn(x, s, i)[j] && Fills(x, s, i) && Carried(x, s, i, j) <= 0.0 && StopDay(x, s, i).state.book.held[j] > 0.0
  }

  /** How a session changes a column's stop: a fill that opens the position sets it at the close, a fill
      that leaves none drops it, and otherwise its distance stays and its ratio moves with the return. */
  lemma {:induction false} ColumnStop(x: Inputs, s: StopBook, i: nat, j: nat)
    requires x.Valid() && s.Sound(x.m) && j < x.m && StopDay(x, s, i).Alive?
    ensures i > 0 ==> Growth(s.book.held, DayReturns(x, s, i)) > 0.0
    ensures !StoppedOn(x, s, i)[j] ==>
      var s' := StopDay(x, s, i).state;
      && (!Fills(x, s, i) ==> s'.dist[j] == s.dist[j] && s'.book.held[j] == Carried(x, s, i, j))
      && (Fills(x, s, i) ==>
           s'.dist[j] == if s'.book.held[j] <= 0.0 then None
                         else if Opens(x, s, i, j) then Some(x.rule.Distance(x.sigma(i, j)))
                         else s.dist[j])
      && s'.ratio[j] == (if Opens(x, s, i, j) then 1.0
                         else if i > 0 then s.ratio[j] * (1.0 + OrZero(x.closeRel(i, j))) else s.ratio[j])
  {
    hide StopDay, Growth, Carried, StoppedOn, Moved, SoldBook, Rearm, Fill, StopDecide, Any, Except, SameSign, DayReturns,
         StopRule.Distance;
    SessionParts(x, s, i);
    var m, stopped := Moved(x, s, i), StoppedOn(x, s, i);
    MovedColumn(x, s, i, j);
    SaleOfColumn(x, m, stopped, i, j);
    var sold := SoldBook(x, m, stopped, i);
    FillOfColumn(x, sold, i, j);
    if !stopped[j] {
      if i > 0 {
        NotStoppedReturns(x, s, i, j);
      }
      if !Any(sold.book.pending) {
        NotPending(sold.book.pending, j);
      }
    }
  }

  lemma NotStoppedReturns(x: Inputs, s: StopBook, i: nat, j: nat)
    requires s.Sound(x.m) && j < x.m && i > 0 && !StoppedOn(x, s, i)[j]
    ensures DayReturns(x, s, i)[j] == OrZero(x.closeRel(i, j))
  {
    hide StoppedMask;
  }

  lemma NotPending(mask: seq<bool>, j: nat)
    requires j < |mask| && !Any(mask)
    ensures !mask[j]
  {
  }

  /** Adding to a position, trimming it or leaving it alone never moves its stop: the distance stays, and
      the ratio to the entry close moves with the return alone. */
  lemma {:induction false} TopUpKeepsStop(x: Inputs, s: StopBook, i: nat, j: nat)
    requires x.Valid() && s.Sound(x.m) && j < x.m && StopDay(x, s, i).Alive? && !StoppedOn(x, s, i)[j]
    requires i > 0 ==> Growth(s.book.held, DayReturns(x, s, i)) > 0.0
    requires Carried(x, s, i, j) > 0.0 && StopDay(x, s, i).state.book.held[j] > 0.0
    ensures var s' := StopDay(x, s, i).state;
      && s'.dist[j] == s.dist[j]
      && s'.ratio[j] == if i > 0 then s.ratio[j] * (1.0 + OrZero(x.closeRel(i, j))) else s.ratio[j]
  {
    hide StopDay, Carried, StoppedOn, Growth, Fills;
    ColumnStop(x, s, i, j);
  }

  /** The rule's distance lies in [minDistance, maxDistance] exactly when that range is not empty. */
  lemma DistanceInRange(rule: StopRule, sigma: Option<real>)
    ensures rule.minDistance <= rule.Distance(sigma) <= rule.maxDistance <==> rule.minDistance <= rule.maxDistance
  {
  }

  /** Between its bounds the distance is the rule's multiple of sigma over the horizon, a missing sigma counting
      as none; outside them it is the bound. The horizon enters through its square root. */
  lemma DistanceIsSigmaOverHorizon(rule: StopRule, sigma: Option<real>, horizon: real)
    requires rule.sqrtHorizon >= 0.0 && rule.sqrtHorizon * rule.sqrtHorizon == horizon
    requires 0.0 <= rule.minDistance <= rule.maxDistance
    ensures var d := rule.Distance(sigma);
      && rule.minDistance <= d <= rule.maxDistance
      && (sigma.None? ==> d == rule.minDistance)
      && (sigma.Some? && rule.sigmaMultiple >= 0.0 && sigma.value >= 0.0 ==>
           var raw2 := (rule.sigmaMultiple * sigma.value) * (rule.sigmaMultiple * sigma.value) * horizon;
           && (d > rule.minDistance ==> d * d <= raw2)
           && (d < rule.maxDistance ==> raw2 <= d * d))
  {
    if sigma.Some? && rule.sigmaMultiple >= 0.0 && sigma.value >= 0.0 {
      var k := rule.sigmaMultiple * sigma.value;
      var raw, d := k * rule.sqrtHorizon, rule.Distance(sigma);
      assert k >= 0.0 && raw >= 0.0;
      assert raw * raw == k * k * horizon by { SquareOf(k, rule.sqrtHorizon); }
      if d > rule.minDistance {
        SquaresOrder(d, raw);
      }
      if d < rule.maxDistance {
        SquaresOrder(raw, d);
      }
    }
  }

  lemma SquareOf(a: real, b: real)
    ensures (a * b) * (a * b) == a * a * (b * b)
  {
  }

  lemma SquaresOrder(a: real, b: real)
    requires 0.0 <= a <= b
    ensures a * a <= b * b
  {
  }

  /** Every stop carried at a close was set by the rule, so it lies in the rule's range. */
  lemma {:induction false} EveryStopInRange(x: Inputs, n: nat, j: nat)
    requires x.Valid() && StopRun(x, n).Alive? && j < x.m && x.rule.minDistance <= x.rule.maxDistance
    requires StopRun(x, n).state.dist[j].Some?
    ensures x.rule.minDistance <= StopRun(x, n).state.dist[j].value <= x.rule.maxDistance
  {
    if n > 0 {
      hide StopDay, StoppedOn, Growth, Any, Carried, Except, StopRule.Distance;
      var s := StopRun(x, n - 1).state;
      ColumnDay(x, s, n - 1, j);
      ColumnStop(x, s, n - 1, j);
      if s.dist[j].Some? {
        EveryStopInRange(x, n - 1, j);
      }
      DistanceInRange(x.rule, x.sigma(n - 1, j));
    }
  }

  // ------------------------------------------------------------------ the cool-off after a stop

  /** A column stopped on session `i` has no weight at any close from `i` to `i + reentrySessions + 1`,
      whatever it is ordered to hold, and its own target is ordered again at the last of them. */
  lemma {:induction false} CoolOff(x: Inputs, i: nat, j: nat, k: nat)
    requires x.Valid() && 0 < i <= k <= i + x.rule.reentrySessions + 1 && j < x.m && StopRun(x, k + 1).Alive?
    requires StopRun(x, i).Alive? && StoppedMask(x, StopRun(x, i).state, i)[j]
    ensures var s := StopRun(x, k + 1).state;
      && s.book.held[j] == 0.0
      && s.coolUntil[j] == i + x.rule.reentrySessions
      && s.book.pendTarget[j] == if k <= i + x.rule.reentrySessions then 0.0 else OrZero(x.targets(k, j))
    decreases k
  {
    hide StopDay, Carried, Growth, DayReturns;
    AliveBefore(x, k, k + 1);
    var s := StopRun(x, k).state;
    ColumnDay(x, s, k, j);
    if k > i {
      CoolOff(x, i, j, k - 1);
      assert !StoppedMask(x, s, k)[j];
      NothingCarried(x, s, k, j);
    }
  }

  lemma NothingCarried(x: Inputs, s: StopBook, i: nat, j: nat)
    requires s.Sound(x.m) && j < x.m && s.book.held[j] == 0.0
    requires i > 0 ==> Growth(s.book.held, DayReturns(x, s, i)) > 0.0
    ensures Carried(x, s, i, j) == 0.0
  {
    hide Growth, DayReturns;
  }
}
