/** What the simulators charge, and what `metrics` recounts from the trades they report. */
module StopCosts {
  import opened Vectors
  import opened SleeveBook
  import opened CatastropheStops
  import opened StopTheorems

  /** One leg on every cell whose weight changed: its size at the per-side rate, plus its fixed fee. */
  function LegCost(x: Inputs, dw: Vec): real
    requires x.Valid() && |dw| == x.m
  {
    Dot(AbsAll(dw), x.perSide) + Fees(x, dw)
  }

  /** The fees of one session as `metrics` counts them from its row of the trades matrix. */
  function Fees(x: Inputs, dw: Vec): real
    requires x.Valid() && |dw| == x.m
  {
    Sum(Where(NonZero(dw), x.fixed))
  }

  lemma FillCharge(x: Inputs, b: Book)
    requires x.Valid() && b.Shaped(x.m)
    ensures Fill(x, b).cost == LegCost(x, Fill(x, b).dw)
    ensures forall j :: 0 <= j < x.m && !b.pending[j] ==> Fill(x, b).dw[j] == 0.0
  {
    if !Any(b.pending) {
      SumZero(Times(AbsAll(Zeros(x.m)), x.perSide));
      SumZero(Where(NonZero(Zeros(x.m)), x.fixed));
    }
  }

  lemma BudgetedDayCharge(x: Inputs, mask: seq<bool>, b: Book, i: nat)
    requires x.Valid() && b.Shaped(x.m) && BudgetedDay(x, mask, b, i).Alive?
    ensures var row := BudgetedDay(x, mask, b, i).rows[0]; |row.trades| == x.m && row.cost == LegCost(x, row.trades)
  {
    hide Fill, Decide, LegCost;
    var rets := Filled(x.closeRel, i, x.m);
    var growth := if i > 0 then Growth(b.held, rets) else 1.0;
    FillCharge(x, if i > 0 then Drift(b, rets, growth) else b);
  }

  /** Every session of a run without stops charges exactly the legs its trades show. */
  lemma {:induction false} BudgetedCharges(x: Inputs, mask: seq<bool>, n: nat, k: nat)
    requires x.Valid() && BudgetedRun(x, mask, n).Alive? && k < n
    ensures var row := BudgetedRun(x, mask, n).rows[k]; |row.trades| == x.m && row.cost == LegCost(x, row.trades)
  {
    hide BudgetedDay, LegCost;
    if k < n - 1 {
      BudgetedCharges(x, mask, n - 1, k);
    } else {
      BudgetedDayCharge(x, mask, BudgetedRun(x, mask, n - 1).state, n - 1);
    }
  }

  /** The stopped columns whose weight was already zero when they were sold. */
  function SoldAtZero(stopped: seq<bool>, held: Vec): (mask: seq<bool>)
    requires |stopped| == |held|
    ensures |mask| == |held|
  {
    seq(|held|, j requires 0 <= j < |held| => stopped[j] && held[j] == 0.0)
  }

  /** Sale and fill never trade the same cell, so together they charge one leg a cell; a stop filled
      at zero is charged a fee on no trade. */
  lemma SaleAndFillCharge(x: Inputs, b: Book, stopped: seq<bool>)
    requires x.Valid() && b.Shaped(x.m) && |stopped| == x.m
    ensures var sale := Sell(x, b, stopped); var fill := Fill(x, sale.book);
      sale.cost + fill.cost ==
        LegCost(x, Plus(sale.dw, fill.dw)) + Sum(Where(SoldAtZero(stopped, b.held), x.fixed))
  {
    var sale := Sell(x, b, stopped);
    var fill := Fill(x, sale.book);
    FillCharge(x, sale.book);
    SaleCharge(x, b, stopped);
    DisjointTrades(x, b, stopped);
    hide Sell, Fill, SoldAtZero, Dot, Sum, Where;
    DisjointLegs(x, sale.dw, fill.dw);
  }

  lemma DisjointTrades(x: Inputs, b: Book, stopped: seq<bool>)
    requires x.Valid() && b.Shaped(x.m) && |stopped| == x.m
    ensures var sale := Sell(x, b, stopped); var fill := Fill(x, sale.book);
      forall j :: 0 <= j < x.m ==> sale.dw[j] == 0.0 || fill.dw[j] == 0.0
  {
    var sale := Sell(x, b, stopped);
    FillCharge(x, sale.book);
    forall j | 0 <= j < x.m && stopped[j]
      ensures !sale.book.pending[j]
    {
      assert Any(stopped);
    }
  }

  lemma DisjointLegs(x: Inputs, a: Vec, b: Vec)
    requires x.Valid() && |a| == |b| == x.m && forall j :: 0 <= j < x.m ==> a[j] == 0.0 || b[j] == 0.0
    ensures LegCost(x, Plus(a, b)) == LegCost(x, a) + LegCost(x, b)
  {
    var dw := Plus(a, b);
    assert forall j :: 0 <= j < x.m ==> AbsAll(dw)[j] == AbsAll(a)[j] + AbsAll(b)[j];
    SplitRate(AbsAll(a), AbsAll(b), AbsAll(dw), x.perSide);
    hide Dot;
    assert forall j :: 0 <= j < x.m ==> NonZero(dw)[j] == (NonZero(a)[j] || NonZero(b)[j]);
    SumPlus(Where(NonZero(a), x.fixed), Where(NonZero(b), x.fixed), Where(NonZero(dw), x.fixed));
  }

  lemma SaleCharge(x: Inputs, b: Book, stopped: seq<bool>)
    requires x.Valid() && b.Shaped(x.m) && |stopped| == x.m
    ensures Sell(x, b, stopped).cost ==
            LegCost(x, Sell(x, b, stopped).dw) + Sum(Where(SoldAtZero(stopped, b.held), x.fixed))
  {
    var dw := Sell(x, b, stopped).dw;
    if Any(stopped) {
      SumPlus(Where(NonZero(dw), x.fixed), Where(SoldAtZero(stopped, b.held), x.fixed), Where(stopped, x.fixed));
    } else {
      SumZero(Times(AbsAll(dw), x.perSide));
      SumZero(Where(NonZero(dw), x.fixed));
      SumZero(Where(SoldAtZero(stopped, b.held), x.fixed));
    }
  }

  lemma SplitRate(a: Vec, b: Vec, c: Vec, rate: Vec)
    requires |a| == |b| == |c| == |rate|
    requires forall j :: 0 <= j < |a| ==> c[j] == a[j] + b[j]
    ensures Dot(c, rate) == Dot(a, rate) + Dot(b, rate)
  {
    forall j | 0 <= j < |a|
      ensures Times(c, rate)[j] == Times(a, rate)[j] + Times(b, rate)[j]
    {
      assert (a[j] + b[j]) * rate[j] == a[j] * rate[j] + b[j] * rate[j];
    }
    SumPlus(Times(a, rate), Times(b, rate), Times(c, rate));
  }

  /** The columns a session stops at a fill of minus one hundred percent. */
  function WipedOut(x: Inputs, s: StopBook, i: nat): (mask: seq<bool>)
    requires s.Sound(x.m)
    ensures |mask| == x.m
  {
    seq(x.m, j requires 0 <= j < x.m => StoppedOn(x, s, i)[j] && DayReturns(x, s, i)[j] == -1.0)
  }

  lemma WipedOutIsSoldAtZero(x: Inputs, s: StopBook, i: nat, g: real)
    requires s.Sound(x.m) && i > 0 && g > 0.0
    ensures SoldAtZero(StoppedMask(x, s, i), Drifted(s.book.held, DayReturns(x, s, i), g)) == WipedOut(x, s, i)
  {
    var r := DayReturns(x, s, i);
    forall j | 0 <= j < x.m && StoppedMask(x, s, i)[j]
      ensures Drifted(s.book.held, r, g)[j] == 0.0 <==> r[j] == -1.0
    {
      hide DayReturns, StoppedMask;
      QuotientSign(s.book.held[j], 1.0 + r[j], g);
      QuotientSign(s.book.held[j], -1.0 - r[j], g);
      NegatedQuotient(s.book.held[j], 1.0 + r[j], g);
    }
  }

  lemma NegatedQuotient(h: real, f: real, g: real)
    requires g > 0.0
    ensures h * -f / g == -(h * f / g)
  {
    assert h * -f / g * g == -(h * f / g) * g;
  }

  lemma StopDayCharge(x: Inputs, s: StopBook, i: nat)
    requires x.Valid() && s.Sound(x.m) && StopDay(x, s, i).Alive?
    ensures var row := StopDay(x, s, i).rows[0];
      |row.trades| == x.m && row.cost == LegCost(x, row.trades) + Sum(Where(WipedOut(x, s, i), x.fixed))
  {
    hide Sell, Fill, Disarm, Rearm, StopDecide, LegCost, SoldAtZero, WipedOut, DayReturns, Growth, StoppedMask, Plus;
    var stopped := StoppedOn(x, s, i);
    var rets := DayReturns(x, s, i);
    var growth := if i > 0 then Growth(s.book.held, rets) else 1.0;
    var moved := if i > 0 then StopDrift(s, rets, growth) else s;
    SaleAndFillCharge(x, moved.book, stopped);
    assert Disarm(x, moved, stopped, i, Sell(x, moved.book, stopped).book).book == Sell(x, moved.book, stopped).book by {
      DisarmKeepsBook(x, moved, stopped, i);
    }
    if i > 0 {
      WipedOutIsSoldAtZero(x, s, i, growth);
    } else {
      NothingStoppedAtStart(x, s);
    }
  }

  lemma DisarmKeepsBook(x: Inputs, s: StopBook, stopped: seq<bool>, i: nat)
    requires x.Valid() && s.Sound(x.m) && |stopped| == x.m
    ensures Disarm(x, s, stopped, i, Sell(x, s.book, stopped).book).book == Sell(x, s.book, stopped).book
  {
  }

  lemma NothingStoppedAtStart(x: Inputs, s: StopBook)
    requires s.Sound(x.m)
    ensures SoldAtZero(StoppedOn(x, s, 0), s.book.held) == WipedOut(x, s, 0)
  {
  }

  /** Every session of a run with stops charges exactly the legs its trades show, plus the fixed fees
      of the columns stopped at a total loss: there alone the recount differs from the charge. */
  lemma {:induction false} StopCharges(x: Inputs, n: nat, k: nat)
    requires x.Valid() && StopRun(x, n).Alive? && k < n
    ensures StopRun(x, k).Alive?
    ensures var row := StopRun(x, n).rows[k];
      |row.trades| == x.m &&
      row.cost == LegCost(x, row.trades) + Sum(Where(WipedOut(x, StopRun(x, k).state, k), x.fixed))
  {
    hide StopDay, LegCost, WipedOut;
    if k < n - 1 {
      StopCharges(x, n - 1, k);
    } else {
      StopDayCharge(x, StopRun(x, n - 1).state, n - 1);
    }
  }

  // ------------------------------------------------------------------ metrics

  predicate RowsOf(x: Inputs, rows: seq<Row>) {
    forall k :: 0 <= k < |rows| ==> |rows[k].trades| == x.m
  }

  function TotalCosts(rows: seq<Row>): real {
    if |rows| == 0 then 0.0 else TotalCosts(rows[..|rows| - 1]) + rows[|rows| - 1].cost
  }

  /** The fees `metrics` counts on the whole trades matrix. */
  function TotalFees(x: Inputs, rows: seq<Row>): real
    requires x.Valid() && RowsOf(x, rows)
  {
    if |rows| == 0 then 0.0 else TotalFees(x, rows[..|rows| - 1]) + Fees(x, rows[|rows| - 1].trades)
  }

  function TotalTurnover(x: Inputs, rows: seq<Row>): real
    requires x.Valid() && RowsOf(x, rows)
  {
    if |rows| == 0 then 0.0
    else TotalTurnover(x, rows[..|rows| - 1]) + Dot(AbsAll(rows[|rows| - 1].trades), x.perSide)
  }

  lemma {:induction false} RecountOf(x: Inputs, rows: seq<Row>)
    requires x.Valid() && RowsOf(x, rows)
    requires forall k :: 0 <= k < |rows| ==> rows[k].cost == LegCost(x, rows[k].trades)
    ensures TotalCosts(rows) - TotalFees(x, rows) == TotalTurnover(x, rows)
  {
    if |rows| > 0 {
      RecountOf(x, rows[..|rows| - 1]);
    }
  }

  /** What `metrics` leaves as variable cost is the turnover at the per-side rates, on every run
      without stops. */
  lemma BudgetedRecount(x: Inputs, mask: seq<bool>, n: nat)
    requires x.Valid() && BudgetedRun(x, mask, n).Alive?
    ensures RowsOf(x, BudgetedRun(x, mask, n).rows)
    ensures var rows := BudgetedRun(x, mask, n).rows;
      TotalCosts(rows) - TotalFees(x, rows) == TotalTurnover(x, rows)
  {
    hide BudgetedRun, LegCost;
    forall k | 0 <= k < n
      ensures var row := BudgetedRun(x, mask, n).rows[k]; |row.trades| == x.m && row.cost == LegCost(x, row.trades)
    {
      BudgetedCharges(x, mask, n, k);
    }
    RecountOf(x, BudgetedRun(x, mask, n).rows);
  }

  /** The fixed fees a run charged for stops filled at a total loss. */
  function UntradedFees(x: Inputs, n: nat): real
    requires x.Valid()
  {
    if n == 0 then 0.0 else
    UntradedFees(x, n - 1) +
      if StopRun(x, n - 1).Ruined? then 0.0 else Sum(Where(WipedOut(x, StopRun(x, n - 1).state, n - 1), x.fixed))
  }

  /** On a run with stops the variable remainder of `metrics` exceeds the turnover by the fees of the
      stops filled at a total loss, and by nothing else. */
  lemma {:induction false} StopRecount(x: Inputs, n: nat)
    requires x.Valid() && StopRun(x, n).Alive?
    ensures RowsOf(x, StopRun(x, n).rows)
    ensures var rows := StopRun(x, n).rows;
      TotalCosts(rows) - TotalFees(x, rows) == TotalTurnover(x, rows) + UntradedFees(x, n)
  {
    hide StopDay, LegCost, WipedOut, Fees, Where, Sum, Dot;
    if n > 0 {
      StopRecount(x, n - 1);
      StopCharges(x, n, n - 1);
      var before, row := StopRun(x, n - 1).rows, StopRun(x, n).rows[n - 1];
      assert StopRun(x, n).rows == before + [row];
      hide StopRun;
      TotalsAppend(x, before, row);
      LegSplit(x, row.trades);
    }
  }

  lemma TotalsAppend(x: Inputs, before: seq<Row>, row: Row)
    requires x.Valid() && RowsOf(x, before) && |row.trades| == x.m
    ensures RowsOf(x, before + [row])
    ensures TotalCosts(before + [row]) == TotalCosts(before) + row.cost
    ensures TotalFees(x, before + [row]) == TotalFees(x, before) + Fees(x, row.trades)
    ensures TotalTurnover(x, before + [row]) == TotalTurnover(x, before) + Dot(AbsAll(row.trades), x.perSide)
  {
    assert (before + [row])[..|before|] == before;
  }

  lemma LegSplit(x: Inputs, dw: Vec)
    requires x.Valid() && |dw| == x.m
    ensures LegCost(x, dw) == Dot(AbsAll(dw), x.perSide) + Fees(x, dw)
  {
  }
}
