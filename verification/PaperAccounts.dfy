/** The paper book's accounts: equity plus the costs paid move only with prices. */
module PaperAccounts {
  import opened Wrappers
  import opened Vectors
  import opened PaperLedger

  /** Equity plus every cost the ledger shows. */
  function Account(b: Book): real
    requires b.Valid()
  {
    b.Equity() + CostsPaid(b)
  }

  /** What a position gains by a new price. */
  function PriceMove(p: Position, px: real): real {
    p.qty * (px - p.price)
  }

  /** The price move on the quantities held before. */
  function CorePnl(before: seq<Position>, after: seq<Position>): real
    requires |before| <= |after|
  {
    if |before| == 0 then 0.0 else
    var n := |before| - 1;
    CorePnl(before[..n], after) + PriceMove(before[n], after[n].price)
  }

  /** The price a trade is carried at: its exit price once closed, else its mark. */
  function CarriedAt(t: Swing): real {
    if t.status.Closed? && t.lastPrice.Some? then t.lastPrice.value else t.Mark()
  }

  /** The price move of a trade that was open before. */
  function TradePnl(before: Swing, after: Swing): real
    requires before.entryRef > 0.0
  {
    if before.status.Open? then before.PnlAt(CarriedAt(after)) - before.PnlAt(before.Mark()) else 0.0
  }

  /** What the ledger drops of a leg's cost: it never counts a negative one. */
  function Unlogged(cost: real): real {
    Max(cost, 0.0) - cost
  }

  // ------------------------------------------------------------------ sums over the book

  lemma {:induction false} CoreValueUpdate(core: seq<Position>, i: nat, p: Position)
    requires i < |core|
    ensures CoreValue(core[i := p]) == CoreValue(core) - core[i].Value() + p.Value()
  {
    var n := |core| - 1;
    if i == n {
      assert core[i := p][..n] == core[..n];
    } else {
      assert core[i := p][..n] == core[..n][i := p];
      CoreValueUpdate(core[..n], i, p);
    }
  }

  lemma CoreValueAppend(core: seq<Position>, p: Position)
    ensures CoreValue(core + [p]) == CoreValue(core) + p.Value()
  {
    assert (core + [p])[..|core|] == core;
  }

  lemma {:induction false} SwingValueUpdate(swing: seq<Swing>, i: nat, t: Swing)
    requires i < |swing| && Priced(swing) && t.entryRef > 0.0
    ensures SwingValue(swing[i := t]) == SwingValue(swing) - Contribution(swing[i]) + Contribution(t)
  {
    hide Contribution;
    var n := |swing| - 1;
    if i == n {
      assert swing[i := t][..n] == swing[..n];
    } else {
      assert swing[i := t][..n] == swing[..n][i := t];
      SwingValueUpdate(swing[..n], i, t);
    }
  }

  lemma SwingValueAppend(swing: seq<Swing>, t: Swing)
    requires Priced(swing) && t.entryRef > 0.0
    ensures SwingValue(swing + [t]) == SwingValue(swing) + Contribution(t)
  {
    assert (swing + [t])[..|swing|] == swing;
  }

  lemma {:induction false} CorePnlUnmoved(before: seq<Position>, after: seq<Position>)
    requires |before| <= |after| && forall k :: 0 <= k < |before| ==> after[k].price == before[k].price
    ensures CorePnl(before, after) == 0.0
  {
    if |before| > 0 {
      CorePnlUnmoved(before[..|before| - 1], after);
    }
  }

  lemma {:induction false} CorePnlOfOne(before: seq<Position>, after: seq<Position>, i: nat)
    requires i < |before| <= |after|
    requires forall k :: 0 <= k < |before| && k != i ==> after[k].price == before[k].price
    ensures CorePnl(before, after) == PriceMove(before[i], after[i].price)
  {
    var n := |before| - 1;
    if i == n {
      CorePnlUnmoved(before[..n], after);
    } else {
      CorePnlOfOne(before[..n], after, i);
    }
  }

  // ------------------------------------------------------------------ the ledger's costs

  /** Every swing row without a cost names a trade of the book. */
  predicate RowsKnown(rows: seq<LedgerRow>, swing: seq<Swing>) {
    forall k :: 0 <= k < |rows| && rows[k].cost.None? && !rows[k].CoreFill? ==> FindTrade(swing, rows[k].trade) < |swing|
  }

  /** Two lists of trades agree on every trade of the first. */
  predicate Extends(swing: seq<Swing>, swing': seq<Swing>) {
    |swing| <= |swing'| && forall k :: 0 <= k < |swing| ==> swing'[k].id == swing[k].id && swing'[k].notional == swing[k].notional
  }

  lemma {:induction false} FindIsFirst(swing: seq<Swing>, id: TradeId, k: nat)
    requires k < |swing| && swing[k].id == id && forall l :: 0 <= l < k ==> swing[l].id != id
    ensures FindTrade(swing, id) == k
  {
    var n := |swing| - 1;
    if k < n {
      FindIsFirst(swing[..n], id, k);
    } else {
      assert forall l :: 0 <= l < n ==> swing[..n][l].id != id;
    }
  }

  lemma {:induction false} FindIsEarliest(swing: seq<Swing>, id: TradeId)
    ensures var k := FindTrade(swing, id); k < |swing| ==> forall l :: 0 <= l < k ==> swing[l].id != id
  {
    if |swing| > 0 {
      var n := |swing| - 1;
      FindIsEarliest(swing[..n], id);
      assert forall l :: 0 <= l < n ==> swing[..n][l] == swing[l];
    }
  }

  lemma {:induction false} SameTradeFound(swing: seq<Swing>, swing': seq<Swing>, id: TradeId)
    requires Extends(swing, swing') && FindTrade(swing, id) < |swing|
    ensures FindTrade(swing', id) == FindTrade(swing, id)
  {
    FindIsEarliest(swing, id);
    FindIsFirst(swing', id, FindTrade(swing, id));
  }

  lemma {:induction false} CostsStay(rows: seq<LedgerRow>, swing: seq<Swing>, swing': seq<Swing>, leg: real)
    requires Extends(swing, swing') && RowsKnown(rows, swing)
    ensures CostsOf(rows, swing', leg) == CostsOf(rows, swing, leg) && RowsKnown(rows, swing')
  {
    if |rows| > 0 {
      var r := rows[|rows| - 1];
      CostsStay(rows[..|rows| - 1], swing, swing', leg);
      if r.cost.None? && !r.CoreFill? {
        SameTradeFound(swing, swing', r.trade);
      }
    }
  }

  lemma CostsAppend(rows: seq<LedgerRow>, r: LedgerRow, swing: seq<Swing>, leg: real)
    ensures CostsOf(rows + [r], swing, leg) == CostsOf(rows, swing, leg) + RowCost(r, swing, leg)
  {
    assert (rows + [r])[..|rows|] == rows;
  }

  // ------------------------------------------------------------------ one operation

  lemma {:induction false} MarkMoves(core: seq<Position>, prices: Prices)
    ensures CoreValue(MarkAll(core, prices)) == CoreValue(core) + CorePnl(core, MarkAll(core, prices))
  {
    if |core| > 0 {
      var n := |core| - 1;
      var all, some := MarkAll(core, prices), MarkAll(core[..n], prices);
      assert all[..n] == some;
      MarkMoves(core[..n], prices);
      SamePnl(core[..n], all, some);
      Remarked(core[n], all[n].price);
      hide PriceMove, Position.Value;
    }
  }

  lemma Remarked(p: Position, px: real)
    ensures p.(price := px).Value() == p.Value() + PriceMove(p, px)
  {
    assert p.qty * px == p.qty * p.price + p.qty * (px - p.price);
  }

  lemma {:induction false} SamePnl(before: seq<Position>, a: seq<Position>, c: seq<Position>)
    requires |before| <= |a| && |before| <= |c| && forall k :: 0 <= k < |before| ==> a[k].price == c[k].price
    ensures CorePnl(before, a) == CorePnl(before, c)
  {
    if |before| > 0 {
      SamePnl(before[..|before| - 1], a, c);
    }
  }

  lemma LineKeepsAccount(b: Book, eq: real, before: real, t: Target, prices: Prices, costBps: CostModel)
    requires b.Valid() && eq > 0.0 && RowsKnown(b.ledger, b.swing)
    ensures var b' := TradeLine(b, eq, before, t, prices, costBps);
      && |b.core| <= |b'.core| && b'.swing == b.swing && RowsKnown(b'.ledger, b'.swing)
      && Account(b') == Account(b) + CorePnl(b.core, b'.core)
  {
    hide CoreValue, CorePnl, LegCost, FillPrice, Delta, Quantity, Bought, CostsOf, SwingValue;
    var b' := TradeLine(b, eq, before, t, prices, costBps);
    if Traded(b.core, before, t, prices) {
      var px := FillPrice(b.core, t.line, prices).value;
      var delta := Delta(t, before, eq);
      var cost := LegCost(eq, costBps(t.line, before, t.weight));
      CostIsPositive(eq, costBps(t.line, before, t.weight));
      CostsAppend(b.ledger, CoreFill(t.line, Some(cost)), b.swing, b.Leg());
      BuyMoves(b.core, t.line, px, delta);
      assert b'.ledger == b.ledger + [CoreFill(t.line, Some(cost))] && b'.Leg() == b.Leg();
      assert b'.core == Bought(b.core, t.line, px, Quantity(delta, px));
      assert CostsPaid(b') == CostsPaid(b) + cost;
    } else {
      CorePnlUnmoved(b.core, b.core);
    }
  }

  lemma CostIsPositive(eq: real, bps: real)
    requires eq > 0.0
    ensures LegCost(eq, bps) >= 0.0
  {
    assert eq * Max(bps, 0.0) >= 0.0;
  }

  /** A purchase of `delta` at `px` re-marks what was held and adds `delta`. */
  lemma BuyMoves(core: seq<Position>, s: Line, px: real, delta: real)
    requires px > 0.0
    ensures var after := Bought(core, s, px, Quantity(delta, px));
      CoreValue(after) == CoreValue(core) + CorePnl(core, after) + delta
  {
    hide CoreValue, CorePnl, Quantity, Position.Value, PriceMove;
    var i, q := FindLine(core, s), Quantity(delta, px);
    if i < |core| {
      var p := Position(s, core[i].qty + q, px);
      CoreValueUpdate(core, i, p);
      CorePnlOfOne(core, core[i := p], i);
      Rebought(core[i], px, delta);
    } else {
      CoreValueAppend(core, Position(s, q, px));
      CorePnlUnmoved(core, core + [Position(s, q, px)]);
      BoughtNew(s, px, delta);
    }
  }

  lemma BoughtNew(s: Line, px: real, delta: real)
    requires px > 0.0
    ensures Position(s, Quantity(delta, px), px).Value() == delta
  {
  }

  lemma Rebought(p: Position, px: real, delta: real)
    requires px > 0.0
    ensures Position(p.line, p.qty + Quantity(delta, px), px).Value() == p.Value() + PriceMove(p, px) + delta
  {
    var q := Quantity(delta, px);
    assert q * px == delta;
    assert (p.qty + q) * px == p.qty * px + q * px;
    assert p.qty * (px - p.price) == p.qty * px - p.qty * p.price;
  }

  /** A filled leg takes its line to the target weight of the equity it started from, off by exactly the
      move between the position's mark and the fill price. */
  lemma LegReachesTarget(b: Book, t: Target, prices: Prices, costBps: CostModel)
    requires b.Valid() && b.Equity() > 0.0 && Traded(b.core, SignedWeight(b, t.line), t, prices)
    ensures var b' := TradeLine(b, b.Equity(), SignedWeight(b, t.line), t, prices, costBps);
      var i, px := FindLine(b.core, t.line), FillPrice(b.core, t.line, prices).value;
      && i < |b'.core| && b'.core[i].line == t.line
      && b'.core[i].Value() + ExposureOn(b.swing, t.line) == t.weight * b.Equity() +
           if i < |b.core| then PriceMove(b.core[i], px) else 0.0
  {
    var i, px, eq := FindLine(b.core, t.line), FillPrice(b.core, t.line, prices).value, b.Equity();
    var before := SignedWeight(b, t.line);
    WeightTimesEquity(b, t.line);
    hide SignedWeight, ExposureOn, Book.Equity, LegCost, FillPrice, PriceMove, Delta, Quantity, Position.Value;
    var delta := Delta(t, before, eq);
    DeltaSplits(t, before, eq);
    if i < |b.core| {
      Rebought(b.core[i], px, delta);
    } else {
      BoughtNew(t.line, px, delta);
    }
  }

  lemma DeltaSplits(t: Target, before: real, eq: real)
    ensures Delta(t, before, eq) == t.weight * eq - before * eq
  {
  }

  lemma WeightTimesEquity(b: Book, s: Line)
    requires b.Valid() && b.Equity() > 0.0
    ensures var i := FindLine(b.core, s);
      SignedWeight(b, s) * b.Equity() == (if i < |b.core| then b.core[i].Value() else 0.0) + ExposureOn(b.swing, s)
  {
    hide Book.Equity, ExposureOn, Position.Value, FindLine;
    var i, eq, e := FindLine(b.core, s), b.Equity(), ExposureOn(b.swing, s);
    if i < |b.core| {
      SharesOf(b.core[i].Value(), e, eq);
    } else {
      SharesOf(0.0, e, eq);
      QuotientIs(0.0, eq, 0.0);
    }
  }

  lemma SharesOf(v: real, e: real, eq: real)
    requires eq != 0.0
    ensures (v / eq + e / eq) * eq == v + e
  {
    var p, q := v / eq, e / eq;
    assert p * eq == v && q * eq == e;
    assert (p + q) * eq == p * eq + q * eq;
  }

  /** An entry changes the account by nothing but what the ledger drops of its cost. */
  lemma EntryKeepsAccount(b: Book, k: Ticket)
    requires b.Valid() && RowsKnown(b.ledger, b.swing)
    ensures var b' := Entered(b, k);
      && RowsKnown(b'.ledger, b'.swing)
      && Account(b') == Account(b) + if Accepted(b, k) then Unlogged(EntryCost(b, k)) else 0.0
  {
    if Accepted(b, k) {
      var b' := Entered(b, k);
      var t := b'.swing[|b.swing|];
      CostsStay(b.ledger, b.swing, b'.swing, b.Leg());
      CostsAppend(b.ledger, SwingEntry(k.id, Some(EntryCost(b, k))), b'.swing, b.Leg());
      SwingValueAppend(b.swing, t);
      AtEntry(t);
    }
  }

  lemma AtEntry(t: Swing)
    requires t.entryRef > 0.0 && t.Mark() == t.entryRef && t.status.Open?
    ensures Contribution(t) == t.notional
  {
    assert t.entryRef / t.entryRef == 1.0;
  }

  /** An accepted entry is paid in full: its declared cost is not negative. */
  lemma EntryCostSign(b: Book, k: Ticket)
    requires b.Valid() && k.sizeNav > 0.0 && b.declared >= 0.0
    ensures EntryCost(b, k) >= 0.0 <==> b.Equity() >= 0.0 || b.declared == 0.0
  {
    hide Book.Equity;
    SignOfCost(k.sizeNav, b.Equity(), b.declared);
  }

  lemma SignOfCost(s: real, e: real, d: real)
    requires s > 0.0 && d >= 0.0
    ensures s * e * d / 100.0 >= 0.0 <==> e >= 0.0 || d == 0.0
  {
    var n := s * e;
    if e >= 0.0 {
      assert n >= 0.0;
      assert n * d >= 0.0;
    } else if d > 0.0 {
      assert n < 0.0;
      assert n * d < 0.0;
    }
  }

  /** Exactly when an entry keeps the account: its declared cost is not negative, that is, the book's
      equity is not negative or no cost is declared. */
  lemma EntryKeepsAccountExactly(b: Book, k: Ticket)
    requires b.Valid() && RowsKnown(b.ledger, b.swing) && Accepted(b, k) && b.declared >= 0.0
    ensures Account(Entered(b, k)) == Account(b) <==> b.Equity() >= 0.0 || b.declared == 0.0
  {
    hide Account, EntryCost, Book.Equity, Entered, RowsKnown;
    EntryKeepsAccount(b, k);
    EntryCostSign(b, k);
  }

  /** What a close adds to the account beside the price move: a negative cost, or the second payout of a
      trade already closed. */
  function CloseLeak(t: Swing, x: Exit, leg: real): real
    requires t.entryRef > 0.0
  {
    Unlogged(t.LegCost(leg)) + if t.status.Open? then 0.0 else t.notional * (1.0 + t.Gross(x.px))
  }

  lemma CloseKeepsAccount(b: Book, i: nat, x: Exit)
    requires b.Valid() && RowsKnown(b.ledger, b.swing) && i < |b.swing|
    ensures var b', t := CloseAt(b, i, x), b.swing[i];
      && RowsKnown(b'.ledger, b'.swing)
      && Account(b') == Account(b) + TradePnl(t, b'.swing[i]) + CloseLeak(t, x, b.Leg())
  {
    hide Swing.Gross, Swing.LegCost, Swing.Payout, CoreValue, CostsOf, SwingValue, Unlogged, CarriedAt, ClosedTrade,
         TradePnl, CloseLeak, Contribution;
    var b', t, leg := CloseAt(b, i, x), b.swing[i], b.Leg();
    CostsStay(b.ledger, b.swing, b'.swing, leg);
    CostsAppend(b.ledger, SwingExit(t.id, Some(t.LegCost(leg))), b'.swing, leg);
    SwingValueUpdate(b.swing, i, b'.swing[i]);
    Payout(t, x, leg);
    assert b'.Leg() == leg && b'.swing[i] == ClosedTrade(t, x, leg);
    assert CostsPaid(b') == CostsPaid(b) + t.LegCost(leg) + Unlogged(t.LegCost(leg));
    assert SwingValue(b'.swing) == SwingValue(b.swing) - Contribution(t);
  }

  /** What the close pays back, against what the trade contributed. */
  lemma Payout(t: Swing, x: Exit, leg: real)
    requires t.entryRef > 0.0
    ensures var c := ClosedTrade(t, x, leg);
      && Contribution(c) == 0.0
      && RowCost(SwingExit(t.id, Some(t.LegCost(leg))), [], leg) == t.LegCost(leg) + Unlogged(t.LegCost(leg))
      && t.Payout(x.px, leg) == Contribution(t) + TradePnl(t, c) + CloseLeak(t, x, leg) - t.LegCost(leg) - Unlogged(t.LegCost(leg))
  {
    var g := t.Gross(x.px);
    hide Swing.Gross;
    assert t.notional * (1.0 + g - leg) == t.notional + t.notional * g - t.notional * leg;
    assert t.notional * (1.0 + g) == t.notional + t.notional * g;
    assert t.PnlAt(x.px) == t.notional * g;
    assert t.LegCost(leg) == t.notional * leg;
    hide Swing.PnlAt, Swing.LegCost;
  }

  /** Closing a trade a second time pays its notional out again: the accounts hold exactly when the trade
      was open, or when that payment is nothing. */
  lemma CloseKeepsAccountExactly(b: Book, i: nat, x: Exit)
    requires b.Valid() && RowsKnown(b.ledger, b.swing) && i < |b.swing| && b.swing[i].LegCost(b.Leg()) >= 0.0
    ensures Account(CloseAt(b, i, x)) == Account(b) + TradePnl(b.swing[i], CloseAt(b, i, x).swing[i]) <==>
            b.swing[i].status.Open? || b.swing[i].notional * (1.0 + b.swing[i].Gross(x.px)) == 0.0
  {
    hide Account, Swing.Gross, Swing.LegCost, CloseAt, TradePnl;
    CloseKeepsAccount(b, i, x);
  }

  /** The cash of an entry and of a close of the same trade. */
  lemma NetCash(b: Book, k: Ticket, later: Book, i: nat, x: Exit)
    requires b.Valid() && Accepted(b, k) && later.Valid() && i < |later.swing| && later.declared == b.declared
    requires var t, entered := later.swing[i], Entered(b, k).swing[|b.swing|];
      t.notional == entered.notional && t.entryRef == entered.entryRef && t.side == entered.side
    ensures var closed := CloseAt(later, i, x);
      && closed.swing[i].netRet.Some?
      && (Entered(b, k).cash - b.cash) + (closed.cash - later.cash)
           == later.swing[i].notional * closed.swing[i].netRet.value
  {
    var t, leg := later.swing[i], b.Leg();
    var n, g := t.notional, t.Gross(x.px);
    assert EntryCost(b, k) == n * leg by {
      assert n * b.declared / 100.0 == n * (b.declared / 100.0);
    }
    assert n * (1.0 + g - leg) == n + n * g - n * leg;
    assert n * (g - 2.0 * leg) == n * g - 2.0 * (n * leg);
  }
}
