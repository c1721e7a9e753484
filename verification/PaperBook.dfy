/** The paper book as the program holds it: methods that change its fields in place. */
module PaperBookObject {
  import opened Wrappers
  import opened Vectors
  import opened PaperLedger

  class PaperBook {
    var startNav: real
    var cash: real
    var core: seq<Position>
    var swing: seq<Swing>
    var declared: real
    var peakNav: real
    var ledger: seq<LedgerRow>

    function Data(): Book
      reads this
    {
      Book(startNav, cash, core, swing, declared, peakNav, ledger)
    }

    constructor (b: Book)
      ensures Data() == b
    {
      startNav, cash, core, swing := b.startNav, b.cash, b.core, b.swing;
      declared, peakNav, ledger := b.declared, b.peakNav, b.ledger;
    }

    method MarkCore(prices: Prices) returns (flags: seq<Line>)
      requires Data().Valid()
      modifies this`core
      ensures Data() == Marked(old(Data()), prices)
      ensures forall s :: s in flags <==> exists k :: 0 <= k < |core| && core[k].line == s && core[k].qty != 0.0 && !Usable(prices(s))
    {
      flags := [];
      ghost var before := core;
      for i := 0 to |core|
        invariant |core| == |before|
        invariant forall k :: 0 <= k < i ==> core[k] == MarkPosition(before[k], prices)
        invariant forall k :: i <= k < |core| ==> core[k] == before[k]
        invariant forall s :: s in flags <==> exists k :: 0 <= k < i && core[k].line == s && core[k].qty != 0.0 && !Usable(prices(s))
      {
        var p := core[i];
        var px := prices(p.line);
        if Usable(px) {
          core := core[i := p.(price := px.value)];
        } else if p.qty != 0.0 {
          flags := flags + [p.line];
        }
      }
      assert core == MarkAll(before, prices);
    }

    method TradeCore(targets: seq<Target>, prices: Prices, costBps: CostModel) returns (legs: nat, flags: seq<Flag>)
      requires Data().Valid()
      modifies this`core, this`cash, this`ledger
      ensures Data() == TradedCore(old(Data()), targets, prices, costBps)
      ensures |ledger| == old(|ledger|) + legs
      ensures flags == if old(Data()).Equity() <= 0.0 then [NoEquity]
                       else FlagsTo(old(Data()), targets, |targets|, prices, costBps)
    {
      legs, flags := 0, [];
      var start := Data();
      var eq := start.Equity();
      if eq <= 0.0 {
        return 0, [NoEquity];
      }
      hide TradeLine, Book.Equity, SignedWeight, Traded, Unpriced;
      for n := 0 to |targets|
        invariant Data() == TradedTo(start, targets, n, prices, costBps)
        invariant |ledger| == |start.ledger| + legs
        invariant flags == FlagsTo(start, targets, n, prices, costBps)
      {
        var filled, unpriced := TradeLeg(eq, SignedWeight(start, targets[n].line), targets[n], prices, costBps);
        legs := legs + if filled then 1 else 0;
        flags := flags + if unpriced then [NoPrice(targets[n].line)] else [];
      }
    }

    /** The body of the loop over the targets: skip, flag, or fill one leg. */
    method TradeLeg(eq: real, before: real, t: Target, prices: Prices, costBps: CostModel)
      returns (filled: bool, unpriced: bool)
      requires Data().Valid()
      modifies this`core, this`cash, this`ledger
      ensures Data() == TradeLine(old(Data()), eq, before, t, prices, costBps)
      ensures filled == Traded(old(core), before, t, prices) && unpriced == Unpriced(old(core), before, t, prices)
      ensures |ledger| == old(|ledger|) + if filled then 1 else 0
    {
      hide Quantity, Delta, LegCost;
      if Abs(t.weight - before) <= MIN_CHANGE {
        return false, false;
      }
      var px := FillPrice(core, t.line, prices);
      if !Usable(px) {
        return false, true;
      }
      var delta := Delta(t, before, eq);
      var cost := LegCost(eq, costBps(t.line, before, t.weight));
      var i := FindLine(core, t.line);
      if i == |core| {
        core := core + [Position(t.line, Quantity(delta, px.value), px.value)];
      } else {
        core := core[i := Position(t.line, core[i].qty + Quantity(delta, px.value), px.value)];
      }
      cash := cash - (delta + cost);
      ledger := ledger + [CoreFill(t.line, Some(cost))];
      return true, false;
    }

    method EnterSwing(k: Ticket) returns (entered: bool)
      requires Data().Valid()
      modifies this`cash, this`swing, this`ledger
      ensures entered == Accepted(old(Data()), k) && Data() == Entered(old(Data()), k)
    {
      hide Book.Equity, EntryCost, Notional, Accepted;
      entered := Accepted(Data(), k);
      if !entered {
        return;
      }
      EntryPriced(Data(), k);
      ghost var b := Data();
      var notional := Notional(Data(), k);
      var entryCost := EntryCost(Data(), k);
      cash := cash - (notional + entryCost);
      swing := swing + [Swing(k.id, k.ticker, k.side, k.line, notional, k.entryRef.value, k.stopPct, k.targetPct,
                              k.entryDay, k.entryRef, Open, None, None, 0, None)];
      ledger := ledger + [SwingEntry(k.id, Some(entryCost))];
      assert Data() == Entered(b, k);
    }

    /** An unknown id raises in the source: nothing changes. */
    method CloseSwing(id: TradeId, x: Exit) returns (known: bool)
      requires Data().Valid()
      modifies this`cash, this`swing, this`ledger
      ensures known == exists i :: 0 <= i < old(|swing|) && old(swing)[i].id == id
      ensures var i := FindTrade(old(swing), id);
        Data() == if known then CloseAt(old(Data()), i, x) else old(Data())
    {
      hide Swing.Gross, Swing.Payout;
      var i := FindTrade(swing, id);
      known := i < |swing|;
      if known {
        var t := swing[i];
        var leg := Data().Leg();
        cash := cash + t.Payout(x.px, leg);
        swing := swing[i := ClosedTrade(t, x, leg)];
        ledger := ledger + [SwingExit(id, Some(t.LegCost(leg)))];
      }
    }

    method SettleSwing(m: Completed)
      requires Data().Valid()
      modifies this`cash, this`swing, this`ledger
      ensures Data() == Settled(old(Data()), m)
    {
      ghost var start := Data();
      hide SettleAt, Book.Valid;
      for n := 0 to |swing|
        invariant |swing| == |start.swing|
        invariant Data() == SettledTo(start, n, m)
      {
        SettleOne(n, m);
      }
    }

    /** The body of the loop over the trades: exit it, or mark it at the last close. */
    method SettleOne(n: nat, m: Completed)
      requires Data().Valid() && n < |swing|
      modifies this`cash, this`swing, this`ledger
      ensures Data() == SettleAt(old(Data()), n, m)
    {
      hide CloseAt, ClosedTrade, Swing.Gross;
      var t := swing[n];
      if t.status.Open? {
        var bars := m.bars(t.ticker);
        var out := if bars.Some? then m.evaluate(t) else None;
        if out.Some? {
          FindOwn(swing, n);
          var known := CloseSwing(t.id, ExitOf(t, out.value));
          return;
        }
        var px := m.lastClose(t.ticker);
        if Usable(px) {
          t := t.(lastPrice := px);
          if bars.Some? && |bars.value| > 0 {
            t := t.(daysHeld := DaysAfter(bars.value, t.entryDay));
          }
          swing := swing[n := t];
        }
      }
    }

    /** The peak is raised first, then the distance below it. */
    method Drawdown() returns (d: real)
      requires Data().Valid()
      modifies this`peakNav
      ensures peakNav == Max(old(peakNav), Data().Equity())
      ensures 0.0 <= d
      ensures peakNav > 0.0 ==> (d == 0.0 <==> Data().Equity() == peakNav)
      ensures peakNav > 0.0 ==> (1.0 - d) * peakNav == Data().Equity()
      ensures peakNav <= 0.0 ==> d == 0.0
    {
      var eq := Data().Equity();
      peakNav := Max(peakNav, eq);
      assert Data().Equity() == eq;
      hide Book.Equity;
      if peakNav > 0.0 {
        var q := eq / peakNav;
        assert q * peakNav == eq;
        QuotientOrder(eq, peakNav, peakNav);
        QuotientOrder(peakNav, eq, peakNav);
        assert peakNav / peakNav == 1.0 by { QuotientIs(peakNav, peakNav, 1.0); }
        d := Max(0.0, 1.0 - q);
      } else {
        d := 0.0;
      }
    }
  }

  lemma EntryPriced(b: Book, k: Ticket)
    requires Accepted(b, k)
    ensures k.entryRef.Some?
  {
  }

  lemma FindOwn(swing: seq<Swing>, n: nat)
    requires n < |swing| && forall i, j :: 0 <= i < j < |swing| ==> swing[i].id != swing[j].id
    ensures FindTrade(swing, swing[n].id) == n
  {
  }
}
