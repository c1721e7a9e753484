/** The paper book in units of stock: what marks, entries, closes and core legs are worth, without any ratio. */
module PaperUnits {
  import opened Wrappers
  import opened Vectors
  import opened PaperLedger
  import opened PaperAccounts
  import opened PaperRuns

  /** The stock a trade's notional buys at its entry reference. */
  ghost predicate Units(t: Swing, units: real) {
    t.entryRef > 0.0 && units * t.entryRef == t.notional
  }

  /** What a long of `units` gains from `entry` to `px`, and a short loses. */
  function Gain(side: Side, units: real, entry: real, px: real): real {
    match side
    case Long => units * (px - entry)
    case Short => units * (entry - px)
  }

  lemma GrossInUnits(t: Swing, units: real, px: real)
    requires Units(t, units)
    ensures t.notional * t.Gross(px) == Gain(t.side, units, t.entryRef, px)
  {
    var e := t.entryRef;
    var q := px / e;
    assert q * e == px;
    assert t.notional * (q - 1.0) == units * e * q - units * e;
    assert units * e * q == units * (q * e);
    assert t.Gross(px) == if t.side.Long? then q - 1.0 else -1.0 * (q - 1.0);
    assert t.notional * (-1.0 * (q - 1.0)) == -(t.notional * (q - 1.0));
  }

  /** A trade's mark is its last price, or its entry reference where it has none. */
  lemma MarkIsLastPrice(t: Swing)
    ensures t.lastPrice.Some? && t.lastPrice.value != 0.0 ==> t.Mark() == t.lastPrice.value
    ensures t.lastPrice.None? || t.lastPrice.value == 0.0 ==> t.Mark() == t.entryRef
  {
  }

  /** What an open trade is worth to the book: the notional set aside and the gain of its units at the mark,
      for a long its units at the mark. */
  lemma OpenTradeInUnits(t: Swing, units: real)
    requires Units(t, units)
    ensures Contribution(t) == if t.status.Closed? then 0.0 else units * t.entryRef + Gain(t.side, units, t.entryRef, t.Mark())
    ensures t.side.Long? && t.status.Open? ==> Contribution(t) == units * t.Mark()
  {
    GrossInUnits(t, units, t.Mark());
    hide Swing.Gross;
    LongInUnits(units, t.entryRef, t.Mark());
  }

  lemma LongInUnits(units: real, e: real, m: real)
    ensures units * e + units * (m - e) == units * m
  {
  }

  /** Its exposure is its units at the mark, signed by its side. */
  lemma ExposureInUnits(t: Swing, units: real)
    requires Units(t, units)
    ensures t.Exposure() == if t.side.Long? then units * t.Mark() else -(units * t.Mark())
  {
    SameValue(units, t.entryRef, t.Mark(), t.notional);
    hide Swing.Mark;
    if t.side.Long? {
      QuotientIs(1.0 * t.notional * t.Mark(), t.entryRef, units * t.Mark());
    } else {
      QuotientIs(-1.0 * t.notional * t.Mark(), t.entryRef, -(units * t.Mark()));
    }
  }

  lemma SameValue(u: real, e: real, m: real, n: real)
    requires u * e == n
    ensures (u * m) * e == 1.0 * n * m && -(u * m) * e == -1.0 * n * m
  {
    assert (u * m) * e == (u * e) * m;
  }

  /** What an open trade gains by an operation: its units times the move of the price it is carried at, up for a
      long and down for a short. */
  lemma TradePnlInUnits(before: Swing, after: Swing, units: real)
    requires Units(before, units) && before.status.Open?
    ensures var m, c := before.Mark(), CarriedAt(after);
      TradePnl(before, after) == if before.side.Long? then units * (c - m) else units * (m - c)
    ensures after.status.Closed? && after.lastPrice.Some? ==> CarriedAt(after) == after.lastPrice.value
    ensures after.status.Open? ==> CarriedAt(after) == after.Mark()
  {
    GrossInUnits(before, units, CarriedAt(after));
    GrossInUnits(before, units, before.Mark());
    MoveInUnits(units, before.entryRef, before.Mark(), CarriedAt(after));
    hide Swing.Gross, CarriedAt, Swing.Mark;
  }

  lemma MoveInUnits(units: real, e: real, m: real, c: real)
    ensures units * (c - e) - units * (m - e) == units * (c - m)
    ensures units * (e - c) - units * (e - m) == units * (m - c)
  {
  }

  /** What a trade adds to the exposure of a line: its units at the mark, signed, while it is open and on it. */
  function Carries(t: Swing, s: Line): real
    requires t.entryRef > 0.0
  {
    if t.status == Open && t.line == s then t.Exposure() else 0.0
  }

  lemma {:induction false} ExposureUpdate(swing: seq<Swing>, i: nat, t: Swing, s: Line)
    requires i < |swing| && Priced(swing) && t.entryRef > 0.0
    ensures ExposureOn(swing[i := t], s) == ExposureOn(swing, s) - Carries(swing[i], s) + Carries(t, s)
  {
    hide Swing.Exposure;
    var n := |swing| - 1;
    if i == n {
      assert swing[i := t][..n] == swing[..n];
    } else {
      assert swing[i := t][..n] == swing[..n][i := t];
      ExposureUpdate(swing[..n], i, t, s);
    }
  }

  /** The exposure of a line over the book's life: none at the start, an entry adds its signed notional to its own
      line, and a close takes the trade's units at the mark away again; no other line's moves. */
  lemma ExposureOfEntry(b: Book, k: Ticket, s: Line)
    requires b.Valid() && Accepted(b, k)
    ensures ExposureOn([], s) == 0.0
    ensures ExposureOn(Entered(b, k).swing, s) == ExposureOn(b.swing, s) +
              if s != k.line then 0.0 else if k.side.Long? then k.sizeNav * b.Equity() else -(k.sizeNav * b.Equity())
  {
    var b' := Entered(b, k);
    var t := b'.swing[|b.swing|];
    assert b'.swing[..|b.swing|] == b.swing;
    ExposureInUnits(t, t.notional / t.entryRef);
    hide Swing.Exposure;
  }

  lemma ExposureOfClose(b: Book, i: nat, x: Exit, units: real, s: Line)
    requires b.Valid() && i < |b.swing| && Units(b.swing[i], units)
    ensures var t := b.swing[i];
      ExposureOn(CloseAt(b, i, x).swing, s) == ExposureOn(b.swing, s) -
        if t.status.Closed? || s != t.line then 0.0 else if t.side.Long? then units * t.Mark() else -(units * t.Mark())
  {
    hide Swing.Exposure, Swing.Gross, Swing.Payout, ExposureOn, ClosedTrade, Book.Valid;
    ClosedSwing(b, i, x);
    ExposureUpdate(b.swing, i, ClosedTrade(b.swing[i], x, b.Leg()), s);
    ExposureInUnits(b.swing[i], units);
  }

  lemma ClosedSwing(b: Book, i: nat, x: Exit)
    requires b.Valid() && i < |b.swing|
    ensures b.swing[i].entryRef > 0.0 && Priced(b.swing)
    ensures CloseAt(b, i, x).swing == b.swing[i := ClosedTrade(b.swing[i], x, b.Leg())]
  {
    hide ClosedTrade, Swing.Payout;
  }

  /** A close pays the notional set aside and the gain of its units into cash, less the declared cost of one
      leg; the net return it records is the gain less two legs, over the notional. */
  lemma CloseInUnits(b: Book, i: nat, x: Exit, units: real)
    requires b.Valid() && i < |b.swing| && Units(b.swing[i], units)
    ensures var b', t := CloseAt(b, i, x), b.swing[i];
      var gain, leg := Gain(t.side, units, t.entryRef, x.px), t.notional * b.declared / 100.0;
      && b'.cash == b.cash + t.notional + gain - leg
      && b'.swing[i].netRet.Some? && t.notional * b'.swing[i].netRet.value == gain - leg - leg
      && b'.swing[i].status.Closed? && b'.swing[i].lastPrice == Some(x.px)
      && b'.swing[i].exitReason == Some(x.reason) && b'.swing[i].exitDay == Some(x.day) && b'.swing[i].daysHeld == x.daysHeld
      && |b'.ledger| == |b.ledger| + 1 && b'.ledger[|b.ledger|] == SwingExit(t.id, Some(leg))
  {
    var t := b.swing[i];
    GrossInUnits(t, units, x.px);
    DeclaredLeg(t, b);
    hide Swing.Gross, Gain, Book.Leg;
    var b' := CloseAt(b, i, x);
    assert b'.swing[i] == ClosedTrade(t, x, b.Leg()) && b'.cash == b.cash + t.Payout(x.px, b.Leg());
    PayoutOf(t.notional, t.Gross(x.px), b.Leg(), b'.swing[i].netRet.value);
    var gain, leg := Gain(t.side, units, t.entryRef, x.px), t.notional * b.declared / 100.0;
    assert b'.cash == b.cash + t.notional + gain - leg;
    assert t.notional * b'.swing[i].netRet.value == gain - leg - leg;
    assert b'.ledger[|b.ledger|] == SwingExit(t.id, Some(t.LegCost(b.Leg())));
    assert t.LegCost(b.Leg()) == leg;
  }

  lemma DeclaredLeg(t: Swing, b: Book)
    ensures t.LegCost(b.Leg()) == t.notional * b.Leg() == t.notional * b.declared / 100.0
  {
  }

  lemma PayoutOf(n: real, g: real, l: real, net: real)
    requires net == g - 2.0 * l
    ensures n * (1.0 + g - l) == n + n * g - n * l
    ensures n * net == n * g - n * l - n * l
  {
  }

  /** A settlement's exit earns exactly the gross return the bars say, long or short: one hundred of notional
      at a gross return of 0.05 gains five. */
  lemma SignalIsTheReturn(t: Swing, g: Signal, units: real)
    requires Units(t, units)
    ensures t.Gross(ExitOf(t, g).px) == g.gross
    ensures Gain(t.side, units, t.entryRef, ExitOf(t, g).px) == t.notional * g.gross
    ensures var x := ExitOf(t, g); x.reason == g.reason && x.day == g.day && x.daysHeld == g.daysHeld
  {
    var e, px := t.entryRef, ExitOf(t, g).px;
    if t.side.Long? {
      QuotientIs(px, e, 1.0 + g.gross);
    } else {
      QuotientIs(px, e, 1.0 - g.gross);
    }
    assert t.Gross(px) == g.gross;
    GrossInUnits(t, units, px);
  }

  /** An accepted entry takes its sized notional and the declared cost of one leg out of cash, and opens a
      trade marked at its entry reference: the book is worth less by the leg alone. */
  lemma EntryInUnits(b: Book, k: Ticket)
    requires b.Valid() && Accepted(b, k)
    ensures k.entryRef.Some? && k.entryRef.value > 0.0 && k.sizeNav > 0.0 && forall i :: 0 <= i < |b.swing| ==> b.swing[i].id != k.id
    ensures var b', n, leg := Entered(b, k), k.sizeNav * b.Equity(), k.sizeNav * b.Equity() * b.declared / 100.0;
      && b'.cash == b.cash - n - leg && b'.Equity() == b.Equity() - leg
      && |b'.swing| == |b.swing| + 1 && b'.core == b.core
      && (var t := b'.swing[|b.swing|];
         && t.notional == n && t.status.Open? && Some(t.entryRef) == k.entryRef == t.lastPrice
         && t.id == k.id && t.side == k.side && t.line == k.line && t.ticker == k.ticker
         && t.stopPct == k.stopPct && t.targetPct == k.targetPct && t.entryDay == k.entryDay)
      && |b'.ledger| == |b.ledger| + 1 && b'.ledger[|b.ledger|] == SwingEntry(k.id, Some(leg))
  {
    var b' := Entered(b, k);
    var t := b'.swing[|b.swing|];
    SwingValueAppend(b.swing, t);
    AtEntry(t);
    hide SwingValue, CoreValue, Contribution;
  }

  /** An order is refused exactly when its id is taken, it has no positive entry price, or no size. */
  lemma RefusedExactly(b: Book, k: Ticket)
    requires b.Valid()
    ensures !Accepted(b, k) <==>
      (exists i :: 0 <= i < |b.swing| && b.swing[i].id == k.id) || k.entryRef.None? || k.entryRef.value <= 0.0 || k.sizeNav <= 0.0
    ensures !Accepted(b, k) ==> Entered(b, k) == b
  {
  }

  // ------------------------------------------------------------------ core legs and marks

  /** The price a core leg fills at: the one quoted, or the position's last where none or zero is. */
  lemma FillPriceExactly(core: seq<Position>, s: Line, prices: Prices, i: nat)
    requires i < |core| && core[i].line == s && forall k, l :: 0 <= k < l < |core| ==> core[k].line != core[l].line
    ensures FillPrice(core, s, prices) ==
            if prices(s).None? || prices(s).value == 0.0 then Some(core[i].price) else prices(s)
  {
  }

  lemma FillPriceOfNewLine(core: seq<Position>, s: Line, prices: Prices)
    requires forall k :: 0 <= k < |core| ==> core[k].line != s
    ensures FillPrice(core, s, prices) == if prices(s).None? || prices(s).value == 0.0 then None else prices(s)
  {
  }

  /** A leg fills exactly when it changes the weight by more than a millionth and has a positive price, and is
      flagged exactly when it would but has none. */
  lemma LegFillsExactly(core: seq<Position>, before: real, t: Target, prices: Prices)
    ensures var moves := t.weight - before > 0.000001 || before - t.weight > 0.000001;
      var px := FillPrice(core, t.line, prices);
      && (Traded(core, before, t, prices) <==> moves && px.Some? && px.value > 0.0)
      && (Unpriced(core, before, t, prices) <==> moves && (px.None? || px.value <= 0.0))
  {
  }

  /** What a filled leg costs: a cost of `bps` basis points of the NAV takes that much out of the book, a
      negative one nothing, and the ledger logs it. */
  lemma LegCostsItsBps(b: Book, eq: real, before: real, t: Target, prices: Prices, costBps: CostModel)
    requires b.Valid() && eq > 0.0 && RowsKnown(b.ledger, b.swing) && Traded(b.core, before, t, prices)
    ensures var b', bps := TradeLine(b, eq, before, t, prices, costBps), costBps(t.line, before, t.weight);
      var cost := b.Equity() + CorePnl(b.core, b'.core) - b'.Equity();
      && 10000.0 * cost == (if bps > 0.0 then eq * bps else 0.0)
      && |b'.ledger| == |b.ledger| + 1 && b'.ledger[|b.ledger|] == CoreFill(t.line, Some(cost))
  {
    var b', bps := TradeLine(b, eq, before, t, prices, costBps), costBps(t.line, before, t.weight);
    LineKeepsAccount(b, eq, before, t, prices, costBps);
    CostIsPositive(eq, bps);
    CostsAppend(b.ledger, CoreFill(t.line, Some(LegCost(eq, bps))), b.swing, b.Leg());
    BpsOf(eq, bps);
    hide CoreValue, CorePnl, SwingValue, CostsOf, Bought, Delta, Quantity, LegCost, FillPrice;
  }

  lemma BpsOf(eq: real, bps: real)
    ensures 10000.0 * LegCost(eq, bps) == if bps > 0.0 then eq * bps else 0.0
  {
  }

  /** A mark moves a line to its quoted price where that is positive, and leaves everything else alone. */
  lemma MarkedExactly(b: Book, prices: Prices, i: nat)
    requires b.Valid() && i < |b.core|
    ensures var b', px := Marked(b, prices), prices(b.core[i].line);
      && |b'.core| == |b.core| && b'.core[i].line == b.core[i].line && b'.core[i].qty == b.core[i].qty
      && b'.core[i].price == (if px.Some? && px.value > 0.0 then px.value else b.core[i].price)
      && b'.cash == b.cash && b'.swing == b.swing && b'.ledger == b.ledger && b'.declared == b.declared
  {
  }

  ghost function LaterDays(days: seq<int>, entry: int): set<nat> {
    set k | 0 <= k < |days| && days[k] > entry
  }

  lemma {:induction false} DaysAfterIsLaterDays(days: seq<int>, entry: int)
    ensures DaysAfter(days, entry) == |LaterDays(days, entry)|
  {
    if |days| == 0 {
      assert LaterDays(days, entry) == {};
    } else {
      var n := |days| - 1;
      DaysAfterIsLaterDays(days[..n], entry);
      assert LaterDays(days, entry) == LaterDays(days[..n], entry) + if days[n] > entry then {n} else {};
    }
  }

  /** A settlement leaves a closed trade alone; one whose bars show an exit is closed at it; any other takes a
      positive last close, and then counts the bars after its entry day. */
  lemma SettledExactly(t: Swing, m: Completed, leg: real)
    requires t.entryRef > 0.0
    ensures var u := SettledTrade(t, m, leg); var bars, px := m.bars(t.ticker), m.lastClose(t.ticker);
      && (t.status.Closed? ==> u == t)
      && (t.status.Open? && bars.Some? && m.evaluate(t).Some? ==> u == ClosedTrade(t, ExitOf(t, m.evaluate(t).value), leg))
      && (t.status.Open? && (bars.None? || m.evaluate(t).None?) ==>
           && u.status.Open? && SameTerms(t, u)
           && u.lastPrice == (if px.Some? && px.value > 0.0 then px else t.lastPrice)
           && (bars.Some? && |bars.value| > 0 && px.Some? && px.value > 0.0 ==>
                u.daysHeld == |LaterDays(bars.value, t.entryDay)|)
           && (bars.None? || bars.value == [] || px.None? || px.value <= 0.0 ==> u.daysHeld == t.daysHeld))
  {
    var bars := m.bars(t.ticker);
    if bars.Some? {
      DaysAfterIsLaterDays(bars.value, t.entryDay);
    }
  }

  /** A core trade flags exactly the lines it would move but has no price for, one flag a line. */
  lemma {:induction false} FlagsExactly(start: Book, targets: seq<Target>, n: nat, prices: Prices, costBps: CostModel, f: Flag)
    requires start.Valid() && start.Equity() > 0.0 && n <= |targets|
    ensures f in FlagsTo(start, targets, n, prices, costBps) <==> exists k :: 0 <= k < n && FlaggedAt(start, targets, k, prices, costBps, f)
  {
    hide Book.Equity, SignedWeight, Unpriced, TradedTo;
    if n > 0 {
      FlagsExactly(start, targets, n - 1, prices, costBps, f);
      assert f in FlagsTo(start, targets, n, prices, costBps) <==>
        f in FlagsTo(start, targets, n - 1, prices, costBps) || FlaggedAt(start, targets, n - 1, prices, costBps, f);
    }
  }

  predicate FlaggedAt(start: Book, targets: seq<Target>, k: nat, prices: Prices, costBps: CostModel, f: Flag)
    requires start.Valid() && start.Equity() > 0.0 && k < |targets|
  {
    f == NoPrice(targets[k].line) &&
    Unpriced(TradedTo(start, targets, k, prices, costBps).core, SignedWeight(start, targets[k].line), targets[k], prices)
  }

  /** The row of a swing fill without a logged cost, of the `i`-th trade and no other. */
  predicate OnlyTradeNamed(r: LedgerRow, swing: seq<Swing>, i: nat)
    requires i < |swing|
  {
    r.cost.None? && !r.CoreFill? && swing[i].id == r.trade && forall k :: 0 <= k < |swing| && swing[k].id == r.trade ==> k == i
  }

  /** What one ledger row counts as paid: its logged cost, none if negative; without one, the declared leg of the
      trade it names, and nothing for a core fill or a trade the book does not know. */
  lemma RowCostExactly(r: LedgerRow, swing: seq<Swing>, leg: real)
    ensures r.cost.Some? ==> RowCost(r, swing, leg) == if r.cost.value > 0.0 then r.cost.value else 0.0
    ensures r.cost.None? && (r.CoreFill? || forall t :: t in swing ==> t.id != r.trade) ==> RowCost(r, swing, leg) == 0.0
    ensures forall i :: 0 <= i < |swing| && OnlyTradeNamed(r, swing, i) ==> RowCost(r, swing, leg) == swing[i].notional * leg
  {
  }
}
