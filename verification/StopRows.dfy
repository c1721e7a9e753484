/** The rows a run with stops reports: each follows from the one before by its returns, stops and orders, and
    its NAV pays every cost. */
module StopRows {
  import opened Wrappers
  import opened Vectors
  import opened SleeveBook
  import opened SleeveMoney
  import opened CatastropheStops
  import opened StopTheorems
  import opened StopCosts

  /** What the sale of the stopped columns costs: one leg on each, with its fixed fee whatever it weighs. */
  function SaleCost(x: Inputs, trades: Vec, stopped: seq<bool>): real
    requires x.Valid() && |trades| == |stopped| == x.m
  {
    Sum(seq(x.m, j requires 0 <= j < x.m => if stopped[j] then SizeOf(trades[j]) * x.perSide[j] + x.fixed[j] else 0.0))
  }

  /** What the fill costs: one leg on each other column that trades. */
  function FillCost(x: Inputs, trades: Vec, stopped: seq<bool>): real
    requires x.Valid() && |trades| == |stopped| == x.m
  {
    Sum(seq(x.m, j requires 0 <= j < x.m =>
      if !stopped[j] && trades[j] != 0.0 then SizeOf(trades[j]) * x.perSide[j] + x.fixed[j] else 0.0))
  }

  /** The size of a trade, bought or sold. */
  function SizeOf(trade: real): real {
    if trade >= 0.0 then trade else -trade
  }

  /** What one session does, from its row and the one before: a stopped column is sold, an order of the close
      before is filled at its target, every other column drifts with its return; the NAV grows, pays for the
      sale and then for the fill. */
  ghost predicate StopFollows(x: Inputs, before: Row, row: Row, stopped: seq<bool>, rets: Vec)
    requires x.Valid()
  {
    && |before.weights| == |before.orders| == |row.weights| == |row.trades| == |stopped| == |rets| == x.m
    && Growth(before.weights, rets) > 0.0
    && var g, sale, fill := Growth(before.weights, rets), SaleCost(x, row.trades, stopped), FillCost(x, row.trades, stopped);
       && row.cost == sale + fill
       && row.nav == before.nav * g * (1.0 - sale) * (1.0 - fill)
       && forall j :: 0 <= j < x.m ==> ColumnFollows(before, row, stopped[j], rets[j], g, j)
  }

  ghost predicate ColumnFollows(before: Row, row: Row, stopped: bool, r: real, g: real, j: nat)
    requires j < |before.weights| == |before.orders| == |row.weights| == |row.trades| && g > 0.0
  {
    var drifted := before.weights[j] * (1.0 + r) / g;
    && row.weights[j] == (if stopped then 0.0 else if before.orders[j].Some? then before.orders[j].value else drifted)
    && row.trades[j] == row.weights[j] - drifted
  }

  lemma SizeIsAbs(trade: real)
    ensures SizeOf(trade) == Abs(trade) == Abs(-trade) && SizeOf(0.0) == Abs(0.0) == 0.0
  {
  }

  lemma ChargeIsLegs(x: Inputs, dw: Vec, fees: seq<bool>, legs: Vec)
    requires x.Valid() && |dw| == |fees| == |legs| == x.m
    requires forall j :: 0 <= j < x.m ==> legs[j] == Abs(dw[j]) * x.perSide[j] + if fees[j] then x.fixed[j] else 0.0
    ensures Charge(x, dw, fees) == Sum(legs)
  {
    hide Abs, Sum;
    SumPlus(Times(AbsAll(dw), x.perSide), Where(fees, x.fixed), legs);
  }

  lemma NoLegs(legs: Vec, m: nat)
    requires |legs| == m && forall j :: 0 <= j < m ==> legs[j] == 0.0
    ensures Sum(legs) == 0.0
  {
    SumZero(legs);
  }

  lemma SaleDw(x: Inputs, b: Book, stopped: seq<bool>)
    requires x.Valid() && b.Shaped(x.m) && |stopped| == x.m
    ensures var sale := Sell(x, b, stopped);
      && (forall j :: 0 <= j < x.m ==> sale.dw[j] == if stopped[j] then -b.held[j] else 0.0)
      && sale.cost == (if Any(stopped) then Charge(x, sale.dw, stopped) else 0.0)
      && sale.book.nav == if Any(stopped) then b.nav * (1.0 - sale.cost) else b.nav
  {
    hide Charge;
    NobodyStopped(stopped);
    hide Any;
  }

  lemma SaleCharged(x: Inputs, b: Book, stopped: seq<bool>, trades: Vec)
    requires x.Valid() && b.Shaped(x.m) && |stopped| == |trades| == x.m
    requires forall j :: 0 <= j < x.m && stopped[j] ==> trades[j] == -b.held[j]
    ensures Sell(x, b, stopped).cost == SaleCost(x, trades, stopped)
    ensures Sell(x, b, stopped).book.nav == b.nav * (1.0 - SaleCost(x, trades, stopped))
  {
    hide Sell, Charge, Sum, Any, SizeOf, Abs;
    var legs := seq(x.m, j requires 0 <= j < x.m =>
      if stopped[j] then SizeOf(trades[j]) * x.perSide[j] + x.fixed[j] else 0.0);
    var dw := Sell(x, b, stopped).dw;
    SaleDw(x, b, stopped);
    if Any(stopped) {
      forall j | 0 <= j < x.m
        ensures legs[j] == Abs(dw[j]) * x.perSide[j] + if stopped[j] then x.fixed[j] else 0.0
      {
        SizeIsAbs(trades[j]);
      }
      ChargeIsLegs(x, dw, stopped, legs);
    } else {
      NobodyStopped(stopped);
      NoLegs(legs, x.m);
    }
  }

  lemma FillDw(x: Inputs, b: Book)
    requires x.Valid() && b.Shaped(x.m)
    ensures var fill := Fill(x, b);
      && (!Any(b.pending) ==> forall j :: 0 <= j < x.m ==> fill.dw[j] == 0.0)
      && fill.cost == (if Any(b.pending) then Charge(x, fill.dw, NonZero(fill.dw)) else 0.0)
      && fill.book.nav == if Any(b.pending) then b.nav * (1.0 - fill.cost) else b.nav
  {
    hide Charge, NonZero, Any, Minus, Choose;
  }

  lemma FillCharged(x: Inputs, b: Book, stopped: seq<bool>, trades: Vec)
    requires x.Valid() && b.Shaped(x.m) && |stopped| == |trades| == x.m
    requires forall j :: 0 <= j < x.m ==> Fill(x, b).dw[j] == if stopped[j] then 0.0 else trades[j]
    ensures Fill(x, b).cost == FillCost(x, trades, stopped)
    ensures Fill(x, b).book.nav == b.nav * (1.0 - FillCost(x, trades, stopped))
  {
    hide Fill, Charge, Sum, Any, SizeOf, Abs;
    var dw := Fill(x, b).dw;
    var legs := seq(x.m, j requires 0 <= j < x.m =>
      if !stopped[j] && trades[j] != 0.0 then SizeOf(trades[j]) * x.perSide[j] + x.fixed[j] else 0.0);
    FillDw(x, b);
    forall j | 0 <= j < x.m
      ensures legs[j] == Abs(dw[j]) * x.perSide[j] + if NonZero(dw)[j] then x.fixed[j] else 0.0
    {
      SizeIsAbs(trades[j]);
    }
    if Any(b.pending) {
      ChargeIsLegs(x, dw, NonZero(dw), legs);
    } else {
      forall j | 0 <= j < x.m
        ensures legs[j] == 0.0
      {
        assert stopped[j] || trades[j] == 0.0;
      }
      NoLegs(legs, x.m);
    }
  }

  lemma MovedNav(x: Inputs, s: StopBook, i: nat)
    requires s.Sound(x.m) && i > 0 && Growth(s.book.held, DayReturns(x, s, i)) > 0.0
    ensures Moved(x, s, i).book.nav == s.book.nav * Growth(s.book.held, DayReturns(x, s, i))
    ensures Moved(x, s, i).book.heldLevel == s.book.heldLevel && Moved(x, s, i).book.pendLevel == s.book.pendLevel
  {
    hide Growth, DayReturns, SameSign;
  }

  /** The row of a session is its book after sale, fill and order decision, with both costs. */
  lemma RowParts(x: Inputs, s: StopBook, i: nat)
    requires x.Valid() && s.Sound(x.m) && StopDay(x, s, i).Alive?
    ensures i > 0 ==> Growth(s.book.held, DayReturns(x, s, i)) > 0.0
    ensures var row, s', b := StopDay(x, s, i).rows[0], StopDay(x, s, i).state, Moved(x, s, i).book;
      var sale := Sell(x, b, StoppedOn(x, s, i));
      var fill := Fill(x, sale.book);
      && Shows(row, s'.book) && s'.book.nav == fill.book.nav && s'.book.heldLevel == fill.book.heldLevel
      && row.cost == sale.cost + fill.cost
  {
    SessionParts(x, s, i);
    var m, stopped := Moved(x, s, i), StoppedOn(x, s, i);
    DisarmKeepsBook(x, m, stopped, i);
    var sold := SoldBook(x, m, stopped, i);
    LevelsKept(x, sold, i, Rearm(x, sold, i, Fill(x, sold.book).book));
    CostOfDay(x, s, i);
    hide StopDay, Growth, DayReturns, Sell, Fill, Rearm, SameSign, StopDecide, Moved, StoppedOn, Disarm;
  }

  lemma CostOfDay(x: Inputs, s: StopBook, i: nat)
    requires x.Valid() && s.Sound(x.m) && StopDay(x, s, i).Alive?
    ensures i > 0 ==> Growth(s.book.held, DayReturns(x, s, i)) > 0.0
    ensures var row, b := StopDay(x, s, i).rows[0], Moved(x, s, i).book;
      var sale := Sell(x, b, StoppedOn(x, s, i));
      Shows(row, StopDay(x, s, i).state.book) && row.cost == sale.cost + Fill(x, sale.book).cost
  {
    hide Growth, DayReturns, StoppedMask, StopDrift, Sell, Fill, Rearm, Plus, SameSign, Nowhere, OrdersOf, StopDecide, Disarm;
    var m, stopped := Moved(x, s, i), StoppedOn(x, s, i);
    DisarmKeepsBook(x, m, stopped, i);
  }

  lemma {:induction false} SessionColumn(x: Inputs, s: StopBook, i: nat, j: nat)
    requires x.Valid() && s.Sound(x.m) && i > 0 && j < x.m && StopDay(x, s, i).Alive?
    ensures Growth(s.book.held, DayReturns(x, s, i)) > 0.0
    ensures var row, b, stopped := StopDay(x, s, i).rows[0], Moved(x, s, i).book, StoppedOn(x, s, i);
      && |row.trades| == x.m
      && (stopped[j] ==> row.trades[j] == -b.held[j])
      && Fill(x, Sell(x, b, stopped).book).dw[j] == if stopped[j] then 0.0 else row.trades[j]
  {
    hide StopDay, DayReturns, StoppedOn, Growth, Carried, Moved, Sell, Fill, Rearm, StopDecide, SameSign, SoldBook, Plus;
    SessionParts(x, s, i);
    SessionTrades(x, s, i);
    ColumnDay(x, s, i, j);
    ColumnTrade(x, s, i, j);
    MovedColumn(x, s, i, j);
    var b, stopped := Moved(x, s, i).book, StoppedOn(x, s, i);
    SaleOfColumn(x, Moved(x, s, i), stopped, i, j);
    FillTrade(x, Sell(x, b, stopped).book, j);
    FillCharge(x, Sell(x, b, stopped).book);
    FillOfColumn(x, SoldBook(x, Moved(x, s, i), stopped, i), i, j);
  }

  lemma {:induction false} ColumnFollowsDay(x: Inputs, s: StopBook, i: nat, j: nat, before: Row)
    requires x.Valid() && s.Sound(x.m) && i > 0 && j < x.m && StopDay(x, s, i).Alive? && Shows(before, s.book)
    ensures Growth(s.book.held, DayReturns(x, s, i)) > 0.0
    ensures var row, rets := StopDay(x, s, i).rows[0], DayReturns(x, s, i);
      |row.trades| == x.m && ColumnFollows(before, row, StoppedOn(x, s, i)[j], rets[j], Growth(s.book.held, rets), j)
  {
    hide StopDay, DayReturns, StoppedOn, Growth;
    ColumnDay(x, s, i, j);
    ColumnTrade(x, s, i, j);
  }

  lemma {:induction false} StopDayFollows(x: Inputs, s: StopBook, i: nat, before: Row)
    requires x.Valid() && s.Sound(x.m) && i > 0 && StopDay(x, s, i).Alive? && Shows(before, s.book)
    ensures StopFollows(x, before, StopDay(x, s, i).rows[0], StoppedOn(x, s, i), DayReturns(x, s, i))
  {
    hide StopDay, DayReturns, StoppedOn, Growth, Moved, Sell, Fill, SaleCost, FillCost, ColumnFollows, SameSign;
    RowParts(x, s, i);
    MovedNav(x, s, i);
    SessionTrades(x, s, i);
    var row, b, stopped := StopDay(x, s, i).rows[0], Moved(x, s, i).book, StoppedOn(x, s, i);
    forall j | 0 <= j < x.m
      ensures stopped[j] ==> row.trades[j] == -b.held[j]
      ensures Fill(x, Sell(x, b, stopped).book).dw[j] == if stopped[j] then 0.0 else row.trades[j]
      ensures ColumnFollows(before, row, stopped[j], DayReturns(x, s, i)[j], Growth(s.book.held, DayReturns(x, s, i)), j)
    {
      SessionColumn(x, s, i, j);
      ColumnFollowsDay(x, s, i, j, before);
    }
    SaleCharged(x, b, stopped, row.trades);
    FillCharged(x, Sell(x, b, stopped).book, stopped, row.trades);
  }

  /** On every session of every run with stops. */
  lemma {:induction false} StopRowsFollow(x: Inputs, n: nat, k: nat)
    requires x.Valid() && StopRun(x, n).Alive? && 0 < k < n
    ensures StopRun(x, k).Alive?
    ensures var rows, s := StopRun(x, n).rows, StopRun(x, k).state;
      StopFollows(x, rows[k - 1], rows[k], StoppedOn(x, s, k), DayReturns(x, s, k))
  {
    hide StopDay, StopFollows, Shows, StoppedOn, DayReturns;
    AliveBefore(x, k, n);
    AliveBefore(x, k + 1, n);
    LastRowShows(x, k);
    StopDayFollows(x, StopRun(x, k).state, k, StopRun(x, k).rows[k - 1]);
  }

  lemma LastRowShows(x: Inputs, k: nat)
    requires x.Valid() && k > 0 && StopRun(x, k).Alive?
    ensures Shows(StopRun(x, k).rows[k - 1], StopRun(x, k).state.book)
  {
    hide StopDay, Shows;
    RowParts(x, StopRun(x, k - 1).state, k - 1);
  }

  /** Over every run with stops, a return earns on each position what it says and nothing on cash. */
  lemma {:induction false} StopsKeepMoney(x: Inputs, n: nat, k: nat)
    requires x.Valid() && StopRun(x, n).Alive? && 0 < k < n
    ensures StopRun(x, k).Alive?
    ensures KeepsMoney(StopRun(x, n).rows[k - 1], StopRun(x, n).rows[k], DayReturns(x, StopRun(x, k).state, k))
  {
    hide StopRun, KeepsMoney, Growth, DayReturns, StoppedOn, SaleCost, FillCost;
    StopRowsFollow(x, n, k);
    CarriedIsDrifted(StopRun(x, n).rows[k - 1], StopRun(x, n).rows[k], DayReturns(x, StopRun(x, k).state, k));
    CarriedKeepsMoney(StopRun(x, n).rows[k - 1], StopRun(x, n).rows[k], DayReturns(x, StopRun(x, k).state, k));
  }

  /** The first row of a run with stops: the whole NAV in cash, nothing traded and nothing charged. */
  lemma {:induction false} StopsStartInCash(x: Inputs, n: nat)
    requires x.Valid() && n > 0 && StopRun(x, n).Alive?
    ensures var row := StopRun(x, n).rows[0];
      && row.nav == 1.0 && row.cost == 0.0 && |row.weights| == |row.trades| == x.m
      && forall j :: 0 <= j < x.m ==> row.weights[j] == 0.0 && row.trades[j] == 0.0
  {
    hide Decisions, Charge, Line, Filled, OrdersOf, Count, StopRule.Distance, SameSign, Cooled;
    AliveBefore(x, 1, n);
    var s := Opening(x.m);
    assert StopRun(x, 0) == Alive(s, []);
    assert !Any(Nowhere(x.m)) && !Any(s.book.pending);
    assert StopRun(x, 1).rows == [] + StopDay(x, s, 0).rows;
  }

  // ------------------------------------------------------------------ levels, orders and hits

  /** A column's level is its last filled order's, and nothing once it is stopped; the orders are the order
      rule's on the session's own targets and levels, zero where they are missing or the column cools. */
  lemma {:induction false} StopOrders(x: Inputs, s: StopBook, i: nat, target: Vec, level: Vec)
    requires x.Valid() && s.Sound(x.m) && StopDay(x, s, i).Alive? && |target| == |level| == x.m
    requires forall j :: 0 <= j < x.m ==>
      var cools := StopDay(x, s, i).state.coolUntil[j] >= i;
      && target[j] == (if cools then 0.0 else OrZero(x.targets(i, j)))
      && level[j] == (if cools then 0.0 else OrZero(x.levels(i, j)))
    ensures var b, b' := s.book, StopDay(x, s, i).state.book;
      && (forall mask: seq<bool> | AllTrue(mask, x.m) :: Decided(x, b', i, mask, target, level))
      && forall j :: 0 <= j < x.m ==>
           b'.heldLevel[j] == (if StoppedOn(x, s, i)[j] then 0.0 else if b.pending[j] then b.pendLevel[j] else b.heldLevel[j])
  {
    SessionParts(x, s, i);
    var sold := SoldBook(x, Moved(x, s, i), StoppedOn(x, s, i), i);
    var traded := Rearm(x, sold, i, Fill(x, sold.book).book);
    DecidedOf(x, traded, i, target, level);
    forall j | 0 <= j < x.m
      ensures Fill(x, sold.book).book.heldLevel[j] ==
              if StoppedOn(x, s, i)[j] then 0.0 else if s.book.pending[j] then s.book.pendLevel[j] else s.book.heldLevel[j]
    {
      hide StopDay, Growth, DayReturns, StoppedOn, Moved, SoldBook, Rearm, Fill, StopDecide, SameSign, Decided;
      FillLevel(x, sold.book, j);
      SaleLevel(x, Moved(x, s, i), StoppedOn(x, s, i), i, j);
      SaleOfColumn(x, Moved(x, s, i), StoppedOn(x, s, i), i, j);
      MovedLevel(x, s, i);
    }
    hide StopDay, Growth, DayReturns, StoppedOn, Moved, SoldBook, Fill, StopDecide, SameSign, Decided;
    LevelsKept(x, sold, i, traded);
  }

  lemma LevelsKept(x: Inputs, sold: StopBook, i: nat, traded: StopBook)
    requires x.Valid() && sold.Sound(x.m) && traded == Rearm(x, sold, i, Fill(x, sold.book).book)
    ensures traded.book == Fill(x, sold.book).book && StopDecide(x, traded, i).heldLevel == traded.book.heldLevel
    ensures StopDecide(x, traded, i).nav == traded.book.nav
  {
    hide Fill, Decisions, Line, SameSign, StopRule.Distance;
  }

  lemma MovedLevel(x: Inputs, s: StopBook, i: nat)
    requires s.Sound(x.m)
    requires i > 0 ==> Growth(s.book.held, DayReturns(x, s, i)) > 0.0
    ensures Moved(x, s, i).book.heldLevel == s.book.heldLevel && Moved(x, s, i).book.pendLevel == s.book.pendLevel
  {
    hide Growth, DayReturns, SameSign;
  }

  lemma SaleLevel(x: Inputs, m: StopBook, stopped: seq<bool>, i: nat, j: nat)
    requires x.Valid() && m.Sound(x.m) && |stopped| == x.m && j < x.m
    ensures var b := SoldBook(x, m, stopped, i).book;
      b.heldLevel[j] == (if stopped[j] then 0.0 else m.book.heldLevel[j]) && b.pendLevel == m.book.pendLevel
  {
    hide Charge, Count, SameSign;
    NobodyStopped(stopped);
  }

  /** Every column is budgeted. */
  predicate AllTrue(mask: seq<bool>, m: nat) {
    |mask| == m && forall j :: 0 <= j < m ==> mask[j]
  }

  lemma DecidedOf(x: Inputs, s: StopBook, i: nat, target: Vec, level: Vec)
    requires s.Shaped(x.m) && |target| == |level| == x.m
    requires forall j :: 0 <= j < x.m ==>
      && target[j] == (if s.coolUntil[j] >= i then 0.0 else OrZero(x.targets(i, j)))
      && level[j] == (if s.coolUntil[j] >= i then 0.0 else OrZero(x.levels(i, j)))
    ensures forall mask: seq<bool> | AllTrue(mask, x.m) :: Decided(x, StopDecide(x, s, i), i, mask, target, level)
  {
    assert target == Cooled(s.coolUntil, i, Filled(x.targets, i, x.m));
    assert level == Cooled(s.coolUntil, i, Filled(x.levels, i, x.m));
    DecideDecides(x, s.book, i, AllOf(x.m), target, level);
    hide Decide, Decided;
    forall mask: seq<bool> | AllTrue(mask, x.m)
      ensures Decided(x, StopDecide(x, s, i), i, mask, target, level)
    {
      assert mask == AllOf(x.m);
    }
  }

  /** The columns of a mask. */
  ghost function Marked(mask: seq<bool>): set<nat> {
    set j | 0 <= j < |mask| && mask[j]
  }

  lemma {:induction false} CountIsMarked(mask: seq<bool>)
    ensures Count(mask) == |Marked(mask)|
  {
    if |mask| > 0 {
      var n := |mask| - 1;
      CountIsMarked(mask[..n]);
      assert Marked(mask) == Marked(mask[..n]) + if mask[n] then {n} else {};
    } else {
      assert Marked(mask) == {};
    }
  }

  /** The stops of a run, session by session. */
  ghost function StopsOf(x: Inputs, n: nat): nat
    requires x.Valid()
  {
    if n == 0 then 0 else
    StopsOf(x, n - 1) + if StopRun(x, n - 1).Ruined? then 0 else |Marked(StoppedOn(x, StopRun(x, n - 1).state, n - 1))|
  }

  /** The number the simulator returns counts every stop of the run. */
  lemma {:induction false} HitsAreStops(x: Inputs, n: nat)
    requires x.Valid() && StopRun(x, n).Alive?
    ensures StopRun(x, n).state.hits == StopsOf(x, n)
  {
    if n > 0 {
      hide StopDay, StoppedOn, Marked;
      HitsAreStops(x, n - 1);
      HitsOfDay(x, StopRun(x, n - 1).state, n - 1);
    }
  }

  lemma HitsOfDay(x: Inputs, s: StopBook, i: nat)
    requires x.Valid() && s.Sound(x.m) && StopDay(x, s, i).Alive?
    ensures StopDay(x, s, i).state.hits == s.hits + |Marked(StoppedOn(x, s, i))|
  {
    SessionParts(x, s, i);
    CountIsMarked(StoppedOn(x, s, i));
    NobodyMarked(StoppedOn(x, s, i));
    hide StopDay, Growth, DayReturns, StoppedOn, Moved, Fill, Sell, StopDecide, SameSign, Marked, Count, Any;
  }

  lemma NobodyMarked(mask: seq<bool>)
    ensures !Any(mask) ==> Marked(mask) == {}
  {
  }

  /** The growth of session `i` of a run with stops: one on the first session, else one plus the weighted returns,
      the fills of the stopped columns included. */
  function StopGrowth(x: Inputs, s: StopBook, i: nat): real
    requires s.Sound(x.m)
  {
    if i == 0 then 1.0 else Growth(s.book.held, DayReturns(x, s, i))
  }

  /** The run was alive before session `d`, which grew the book by something or left nothing of it. */
  ghost predicate GrewOnDay(x: Inputs, d: nat, grew: bool)
    requires x.Valid()
  {
    StopRun(x, d).Alive? && (StopGrowth(x, StopRun(x, d).state, d) > 0.0 <==> grew)
  }

  /** A run with stops is wiped out exactly on the first session whose growth leaves nothing, and names it. */
  ghost predicate RuinsWhereItShould(x: Inputs, n: nat)
    requires x.Valid()
  {
    match StopRun(x, n)
    case Ruined(d) => d < n && GrewOnDay(x, d, false)
    case Alive(_, _) => forall d :: 0 <= d < n ==> GrewOnDay(x, d, true)
  }

  lemma {:induction false} StopsRuinExactly(x: Inputs, n: nat)
    requires x.Valid()
    ensures RuinsWhereItShould(x, n)
  {
    if n > 0 {
      hide RuinsWhereItShould;
      StopsRuinExactly(x, n - 1);
      RuinsOneMore(x, n - 1);
    }
  }

  lemma RuinsOneMore(x: Inputs, n: nat)
    requires x.Valid() && RuinsWhereItShould(x, n)
    ensures RuinsWhereItShould(x, n + 1)
  {
    hide StopRun, GrewOnDay, StopDay;
    OneMoreStopSession(x, n);
    if StopRun(x, n).Alive? {
      GrewOrRuined(x, n);
    }
  }

  lemma OneMoreStopSession(x: Inputs, i: nat)
    requires x.Valid()
    ensures var before, after := StopRun(x, i), StopRun(x, i + 1);
      && (before.Ruined? ==> after == before)
      && (before.Alive? ==>
           var day := StopDay(x, before.state, i);
           (day.Ruined? <==> after.Ruined?) && (day.Ruined? ==> after == day))
  {
    hide StopDay;
  }

  lemma GrewOrRuined(x: Inputs, i: nat)
    requires x.Valid() && StopRun(x, i).Alive?
    ensures var day := StopDay(x, StopRun(x, i).state, i);
      GrewOnDay(x, i, day.Alive?) && (day.Ruined? ==> day.day == i)
  {
    hide StopRun, StopDay, StopGrowth;
    DayRuins(x, StopRun(x, i).state, i);
  }

  lemma DayRuins(x: Inputs, s: StopBook, i: nat)
    requires x.Valid() && s.Sound(x.m)
    ensures StopDay(x, s, i).Ruined? <==> StopGrowth(x, s, i) <= 0.0
    ensures StopDay(x, s, i).Ruined? ==> StopDay(x, s, i).day == i
  {
    hide Growth, DayReturns, StopTrade, StopDrift, StopDecide, RowOf, StoppedMask;
  }
}
