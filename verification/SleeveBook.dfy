/** The day-by-day sleeve simulators, with and without a catastrophe stop. */
module SleeveBook {
  import opened Wrappers
  import opened Vectors

  /** A data frame on the plan's calendar: (session, column) to a value, None where it is NaN. */
  type Frame = (nat, nat) -> Option<real>

  datatype StopRule = StopRule(minDistance: real, sigmaMultiple: real, sqrtHorizon: real,
                               maxDistance: real, reentrySessions: int) {
    function Distance(sigmaDaily: Option<real>): real {
      Min(Max(minDistance, sigmaMultiple * OrZero(sigmaDaily) * sqrtHorizon), maxDistance)
    }
  }

  /** What the order decision sees at one close. An absent threshold or budget stands for infinity. */
  datatype CloseView = CloseView(held: Vec, heldLevel: Vec, target: Vec, level: Vec,
                                 threshold: seq<Option<real>>, mask: seq<bool>, budget: Option<real>)

  /** `decide` is the live order rule: any function of the close to one Boolean per column. */
  datatype Inputs = Inputs(m: nat, targets: Frame, levels: Frame, thresholds: Frame, closeRel: Frame,
                           openRel: Frame, lowRel: Frame, sigma: Frame, perSide: Vec, fixed: Vec,
                           rule: StopRule, budget: Option<real>, decide: (CloseView, nat) -> bool) {
    predicate Valid() {
      |perSide| == m && |fixed| == m
    }
  }

  /** The variables both day loops carry. */
  datatype Book = Book(held: Vec, heldLevel: Vec, nav: real,
                       pending: seq<bool>, pendTarget: Vec, pendLevel: Vec) {
    predicate Shaped(m: nat) {
      |held| == m && |heldLevel| == m && |pending| == m && |pendTarget| == m && |pendLevel| == m
    }
  }

  /** The output row of one session. */
  datatype Row = Row(nav: real, weights: Vec, trades: Vec, cost: real, orders: seq<Option<real>>)

  /** A simulation so far, or the session on which the book was wiped out. */
  datatype Run<+S> = Alive(state: S, rows: seq<Row>) | Ruined(day: nat)

  /** A trade at a close: the book after it, the change of each weight and the cost. */
  datatype Trade = Trade(book: Book, dw: Vec, cost: real)

  function OrZero(x: Option<real>): (r: real)
    ensures x.None? ==> r == 0.0
    ensures x == Some(r) || x.None?
  {
    if x.Some? then x.value else 0.0
  }

  function Line(f: Frame, i: nat, m: nat): (v: seq<Option<real>>)
    ensures |v| == m
  {
    seq(m, j requires 0 <= j < m => f(i, j))
  }

  function Filled(f: Frame, i: nat, m: nat): (v: Vec)
    ensures |v| == m
  {
    seq(m, j requires 0 <= j < m => OrZero(f(i, j)))
  }

  function EmptyBook(m: nat): (b: Book)
    ensures b.Shaped(m)
  {
    Book(Zeros(m), Zeros(m), 1.0, Nowhere(m), Zeros(m), Zeros(m))
  }

  // ------------------------------------------------------------------ one session, shared steps

  function Growth(held: Vec, r: Vec): real
    requires |held| == |r|
  {
    1.0 + Dot(held, r)
  }

  /** What a weight becomes under a return and the book's growth. */
  function Grown(h: real, r: real, g: real): real
    requires g > 0.0
  {
    h * (1.0 + r) / g
  }

  function Drifted(held: Vec, r: Vec, g: real): (v: Vec)
    requires |held| == |r| && g > 0.0
    ensures |v| == |r|
  {
    seq(|r|, j requires 0 <= j < |r| => Grown(held[j], r[j], g))
  }

  function Drift(b: Book, r: Vec, g: real): (b': Book)
    requires b.Shaped(|r|) && g > 0.0
    ensures b'.Shaped(|r|)
  {
    b.(held := Drifted(b.held, r, g), nav := b.nav * g)
  }

  function Charge(x: Inputs, dw: Vec, fees: seq<bool>): real
    requires x.Valid() && |dw| == |fees| == x.m
  {
    Dot(AbsAll(dw), x.perSide) + Sum(Where(fees, x.fixed))
  }

  function Fill(x: Inputs, b: Book): (t: Trade)
    requires x.Valid() && b.Shaped(x.m)
    ensures t.book.Shaped(x.m) && |t.dw| == x.m
    ensures !Any(b.pending) ==> t.book.held == b.held
  {
    if !Any(b.pending) then Trade(b, Zeros(x.m), 0.0) else
    var held := Choose(b.pending, b.pendTarget, b.held);
    var level := Choose(b.pending, b.pendLevel, b.heldLevel);
    var dw := Minus(held, b.held);
    var cost := Charge(x, dw, NonZero(dw));
    Trade(b.(held := held, heldLevel := level, nav := b.nav * (1.0 - cost)), dw, cost)
  }

  function Decisions(x: Inputs, view: CloseView): (pending: seq<bool>)
    ensures |pending| == x.m
  {
    seq(x.m, j requires 0 <= j < x.m => x.decide(view, j))
  }

  function Decide(x: Inputs, b: Book, i: nat, mask: seq<bool>, target: Vec, level: Vec): (b': Book)
    requires b.Shaped(x.m) && |target| == |level| == x.m
    ensures b'.Shaped(x.m)
  {
    var view := CloseView(b.held, b.heldLevel, target, level, Line(x.thresholds, i, x.m), mask, x.budget);
    b.(pending := Decisions(x, view), pendTarget := target, pendLevel := level)
  }

  function RowOf(b: Book, dw: Vec, cost: real): Row
    requires |b.pendTarget| == |b.pending|
  {
    Row(b.nav, b.held, dw, cost, OrdersOf(b.pending, b.pendTarget))
  }

  /** The orders a close leaves: a target where one is pending. */
  function OrdersOf(pending: seq<bool>, target: Vec): (orders: seq<Option<real>>)
    requires |target| == |pending|
    ensures |orders| == |pending|
  {
    seq(|pending|, j requires 0 <= j < |pending| => if pending[j] then Some(target[j]) else None)
  }

  /** The row reports the book at its close. */
  predicate Shows(row: Row, b: Book) {
    |b.pendTarget| == |b.pending| && row.nav == b.nav && row.weights == b.held && row.orders == OrdersOf(b.pending, b.pendTarget)
  }

  /** A column's level after a fill: its order's where one was pending, else what it was. */
  lemma FillLevel(x: Inputs, b: Book, j: nat)
    requires x.Valid() && b.Shaped(x.m) && j < x.m
    ensures Fill(x, b).book.heldLevel[j] == if b.pending[j] then b.pendLevel[j] else b.heldLevel[j]
  {
    hide Charge, NonZero, Minus;
  }

  /** The orders of a close are the order rule's, on what the close shows: the weights and levels held, the
      session's targets and levels, its thresholds, and the budget. */
  ghost predicate Decided(x: Inputs, b: Book, i: nat, mask: seq<bool>, target: Vec, level: Vec) {
    && |b.pending| == |target| == |level| == x.m
    && b.pendTarget == target && b.pendLevel == level
    && forall threshold: seq<Option<real>>, j: nat ::
         |threshold| == x.m && (forall k :: 0 <= k < x.m ==> threshold[k] == x.thresholds(i, k)) && j < x.m ==>
           b.pending[j] == x.decide(CloseView(b.held, b.heldLevel, target, level, threshold, mask, x.budget), j)
  }

  lemma DecideDecides(x: Inputs, b: Book, i: nat, mask: seq<bool>, target: Vec, level: Vec)
    requires b.Shaped(x.m) && |target| == |level| == x.m
    ensures Decided(x, Decide(x, b, i, mask, target, level), i, mask, target, level)
    ensures var b' := Decide(x, b, i, mask, target, level);
      b'.held == b.held && b'.heldLevel == b.heldLevel && b'.nav == b.nav
  {
    var b' := Decide(x, b, i, mask, target, level);
    forall threshold: seq<Option<real>>, j: nat
      | |threshold| == x.m && (forall k :: 0 <= k < x.m ==> threshold[k] == x.thresholds(i, k)) && j < x.m
      ensures b'.pending[j] == x.decide(CloseView(b'.held, b'.heldLevel, target, level, threshold, mask, x.budget), j)
    {
      assert threshold == Line(x.thresholds, i, x.m);
    }
  }

  // ------------------------------------------------------------------ simulate_budgeted

  function BudgetedDay(x: Inputs, mask: seq<bool>, b: Book, i: nat): (r: Run<Book>)
    requires x.Valid() && b.Shaped(x.m)
    ensures r.Alive? ==> r.state.Shaped(x.m) && |r.rows| == 1 && Shows(r.rows[0], r.state)
  {
    var rets := Filled(x.closeRel, i, x.m);
    var growth := if i > 0 then Growth(b.held, rets) else 1.0;
    if growth <= 0.0 then Ruined(i) else
    var moved := if i > 0 then Drift(b, rets, growth) else b;
    var t := Fill(x, moved);
    var b' := Decide(x, t.book, i, mask, Filled(x.targets, i, x.m), Filled(x.levels, i, x.m));
    Alive(b', [RowOf(b', t.dw, t.cost)])
  }

  function BudgetedRun(x: Inputs, mask: seq<bool>, n: nat): (r: Run<Book>)
    requires x.Valid()
    ensures r.Alive? ==> r.state.Shaped(x.m) && |r.rows| == n
    ensures r.Alive? && n > 0 ==> Shows(r.rows[n - 1], r.state)
  {
    if n == 0 then Alive(EmptyBook(x.m), []) else
    var before := BudgetedRun(x, mask, n - 1);
    if before.Ruined? then before else
    var day := BudgetedDay(x, mask, before.state, n - 1);
    if day.Ruined? then day else Alive(day.state, before.rows + day.rows)
  }

  /** The body of the simulator's loop: the session's return, the fill of the pending orders and the next
      orders, on the loop's own variables. */
  method BudgetedSession(x: Inputs, mask: seq<bool>, b: Book, i: nat) returns (r: Run<Book>)
    requires x.Valid() && b.Shaped(x.m)
    ensures r == BudgetedDay(x, mask, b, i)
  {
    hide Charge, Any, Choose, Minus, NonZero, Line, Filled, Dot, Zeros, Drifted, Decisions, RowOf, Shows, OrdersOf;
    var held, heldLevel, nav, pending := b.held, b.heldLevel, b.nav, b.pending;
    if i > 0 {
      var rets := Filled(x.closeRel, i, x.m);
      var growth := 1.0 + Dot(held, rets);
      if growth <= 0.0 {
        return Ruined(i);
      }
      held := Drifted(held, rets, growth);
      nav := nav * growth;
      assert Drift(b, rets, growth) == b.(held := held, nav := nav);
    }
    ghost var moved := b.(held := held, nav := nav);
    var dw, cost := Zeros(x.m), 0.0;
    if Any(pending) {
      var filled := Choose(pending, b.pendTarget, held);
      dw := Minus(filled, held);
      cost := Charge(x, dw, NonZero(dw));
      held := filled;
      heldLevel := Choose(pending, b.pendLevel, heldLevel);
      nav := nav * (1.0 - cost);
    }
    assert Fill(x, moved) == Trade(b.(held := held, heldLevel := heldLevel, nav := nav), dw, cost);
    var pendTarget, pendLevel := Filled(x.targets, i, x.m), Filled(x.levels, i, x.m);
    pending := Decisions(x, CloseView(held, heldLevel, pendTarget, pendLevel, Line(x.thresholds, i, x.m), mask, x.budget));
    var book := Book(held, heldLevel, nav, pending, pendTarget, pendLevel);
    r := Alive(book, [RowOf(book, dw, cost)]);
  }

  /** The loop over the sessions: it ends early on the one that wipes the book out. */
  method SimulateBudgeted(x: Inputs, mask: seq<bool>, n: nat) returns (r: Run<Book>)
    requires x.Valid()
    ensures r == BudgetedRun(x, mask, n)
  {
    hide BudgetedDay, Shows;
    var book := EmptyBook(x.m);
    var rows: seq<Row> := [];
    for i := 0 to n
      invariant book.Shaped(x.m)
      invariant BudgetedRun(x, mask, i) == Alive(book, rows)
    {
      var day := BudgetedSession(x, mask, book, i);
      if day.Ruined? {
        RuinIsFinal(x, mask, i + 1, n);
        return day;
      }
      book := day.state;
      rows := rows + day.rows;
    }
    r := Alive(book, rows);
  }

  lemma {:induction false} RuinIsFinal(x: Inputs, mask: seq<bool>, k: nat, n: nat)
    requires x.Valid() && k <= n && BudgetedRun(x, mask, k).Ruined?
    ensures BudgetedRun(x, mask, n) == BudgetedRun(x, mask, k)
  {
    hide BudgetedDay;
    if k < n {
      RuinIsFinal(x, mask, k, n - 1);
    }
  }

  lemma {:induction false} BudgetedPrefix(x: Inputs, mask: seq<bool>, k: nat, n: nat)
    requires x.Valid() && k <= n && BudgetedRun(x, mask, n).Alive?
    ensures BudgetedRun(x, mask, k).Alive? && BudgetedRun(x, mask, k).rows == BudgetedRun(x, mask, n).rows[..k]
  {
    hide BudgetedDay, Shows;
    if k < n {
      BudgetedPrefix(x, mask, k, n - 1);
    }
  }

  /** What one session does to the weights: an order of the close before is filled at its target, every
      other column drifts with its return; the trades are what the fill changed, and the NAV grows and pays. */
  ghost predicate Follows(before: Row, row: Row, rets: Vec) {
    && |before.weights| == |before.orders| == |row.weights| == |row.trades| == |rets|
    && Growth(before.weights, rets) > 0.0
    && row.nav == before.nav * Growth(before.weights, rets) * (1.0 - row.cost)
    && forall j :: 0 <= j < |rets| ==>
         var drifted := before.weights[j] * (1.0 + rets[j]) / Growth(before.weights, rets);
         && row.weights[j] == (if before.orders[j].Some? then before.orders[j].value else drifted)
         && row.trades[j] == row.weights[j] - drifted
  }

  lemma BudgetedDayFollows(x: Inputs, mask: seq<bool>, b: Book, i: nat, before: Row)
    requires x.Valid() && b.Shaped(x.m) && i > 0 && BudgetedDay(x, mask, b, i).Alive? && Shows(before, b)
    ensures Follows(before, BudgetedDay(x, mask, b, i).rows[0], Filled(x.closeRel, i, x.m))
  {
    hide Charge, Decisions, Filled, Line, Dot;
  }

  /** The reported rows alone tell the story: each follows from the one before by its orders and returns. */
  lemma {:induction false} RowsFollow(x: Inputs, mask: seq<bool>, n: nat, k: nat)
    requires x.Valid() && BudgetedRun(x, mask, n).Alive? && 0 < k < n
    ensures var rows := BudgetedRun(x, mask, n).rows; Follows(rows[k - 1], rows[k], Filled(x.closeRel, k, x.m))
  {
    hide BudgetedDay, Follows, Shows;
    BudgetedPrefix(x, mask, k, n);
    BudgetedPrefix(x, mask, k + 1, n);
    BudgetedDayFollows(x, mask, BudgetedRun(x, mask, k).state, k, BudgetedRun(x, mask, k).rows[k - 1]);
  }

  /** The first row: the whole NAV in cash, nothing traded and nothing charged. */
  lemma {:induction false} StartsInCash(x: Inputs, mask: seq<bool>, n: nat)
    requires x.Valid() && n > 0 && BudgetedRun(x, mask, n).Alive?
    ensures var row := BudgetedRun(x, mask, n).rows[0];
      && row.nav == 1.0 && row.cost == 0.0 && |row.weights| == |row.trades| == x.m
      && forall j :: 0 <= j < x.m ==> row.weights[j] == 0.0 && row.trades[j] == 0.0
  {
    hide Decisions, Charge, Line, Filled, OrdersOf, Shows;
    BudgetedPrefix(x, mask, 1, n);
    assert BudgetedRun(x, mask, 0).state == EmptyBook(x.m);
    assert BudgetedRun(x, mask, 1).rows == [] + BudgetedDay(x, mask, EmptyBook(x.m), 0).rows;
  }

  /** What a session of the plain simulator holds and orders: a column's level is its last filled order's, and
      the orders are the order rule's on the session's own targets and levels, zero where they are missing. */
  lemma BudgetedOrders(x: Inputs, mask: seq<bool>, b: Book, i: nat, target: Vec, level: Vec)
    requires x.Valid() && b.Shaped(x.m) && BudgetedDay(x, mask, b, i).Alive? && |target| == |level| == x.m
    requires forall j :: 0 <= j < x.m ==> target[j] == OrZero(x.targets(i, j)) && level[j] == OrZero(x.levels(i, j))
    ensures var b' := BudgetedDay(x, mask, b, i).state;
      && Decided(x, b', i, mask, target, level)
      && forall j :: 0 <= j < x.m ==> b'.heldLevel[j] == if b.pending[j] then b.pendLevel[j] else b.heldLevel[j]
  {
    hide Decided, Growth, Drifted, Charge, RowOf, Shows, Decisions;
    var rets := Filled(x.closeRel, i, x.m);
    var moved := if i > 0 then Drift(b, rets, Growth(b.held, rets)) else b;
    assert target == Filled(x.targets, i, x.m) && level == Filled(x.levels, i, x.m);
    DecideDecides(x, Fill(x, moved).book, i, mask, target, level);
    forall j | 0 <= j < x.m
      ensures Fill(x, moved).book.heldLevel[j] == if b.pending[j] then b.pendLevel[j] else b.heldLevel[j]
    {
      FillLevel(x, moved, j);
    }
    hide Fill, Decide;
  }

  /** The growth of session `i` on a book: one on the first session, else one plus the weighted returns. */
  function BookGrowth(x: Inputs, b: Book, i: nat): real
    requires b.Shaped(x.m)
  {
    if i == 0 then 1.0 else Growth(b.held, Filled(x.closeRel, i, x.m))
  }

  /** The run was alive before session `d`, which grew the book by something or left nothing of it. */
  ghost predicate GrewOn(x: Inputs, mask: seq<bool>, d: nat, grew: bool)
    requires x.Valid()
  {
    BudgetedRun(x, mask, d).Alive? && (BookGrowth(x, BudgetedRun(x, mask, d).state, d) > 0.0 <==> grew)
  }

  /** A run is wiped out exactly on the first session whose growth leaves nothing, and names that session. */
  ghost predicate RuinsWhereItShould(x: Inputs, mask: seq<bool>, n: nat)
    requires x.Valid()
  {
    match BudgetedRun(x, mask, n)
    case Ruined(d) => d < n && GrewOn(x, mask, d, false)
    case Alive(_, _) => forall d :: 0 <= d < n ==> GrewOn(x, mask, d, true)
  }

  lemma {:induction false} RuinsExactly(x: Inputs, mask: seq<bool>, n: nat)
    requires x.Valid()
    ensures RuinsWhereItShould(x, mask, n)
  {
    if n > 0 {
      hide RuinsWhereItShould;
      RuinsExactly(x, mask, n - 1);
      RuinsOneMore(x, mask, n - 1);
    }
  }

  lemma RuinsOneMore(x: Inputs, mask: seq<bool>, n: nat)
    requires x.Valid() && RuinsWhereItShould(x, mask, n)
    ensures RuinsWhereItShould(x, mask, n + 1)
  {
    hide BudgetedRun, GrewOn, BudgetedDay;
    OneMoreSession(x, mask, n);
    if BudgetedRun(x, mask, n).Alive? {
      SessionRuins(x, mask, n);
    }
  }

  lemma OneMoreSession(x: Inputs, mask: seq<bool>, i: nat)
    requires x.Valid()
    ensures var before, after := BudgetedRun(x, mask, i), BudgetedRun(x, mask, i + 1);
      && (before.Ruined? ==> after == before)
      && (before.Alive? ==>
           var day := BudgetedDay(x, mask, before.state, i);
           (day.Ruined? <==> after.Ruined?) && (day.Ruined? ==> after == day))
  {
    hide BudgetedDay;
  }

  lemma SessionRuins(x: Inputs, mask: seq<bool>, i: nat)
    requires x.Valid() && BudgetedRun(x, mask, i).Alive?
    ensures var day := BudgetedDay(x, mask, BudgetedRun(x, mask, i).state, i);
      && GrewOn(x, mask, i, day.Alive?)
      && (day.Ruined? ==> day.day == i)
  {
    hide BudgetedRun, Growth, Filled, Fill, Decide, RowOf, Shows, Drift;
  }
}
