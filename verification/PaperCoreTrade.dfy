/** A whole core trade: every line ends at its target, at the equity and weights the trade started from. */
module PaperCoreTrade {
  import opened Wrappers
  import opened PaperLedger
  import opened PaperAccounts

  /** Every line is ordered once. */
  predicate OncePerLine(targets: seq<Target>) {
    forall k, l :: 0 <= k < l < |targets| ==> targets[k].line != targets[l].line
  }

  /** A line's position, where it has one. */
  function PositionOf(core: seq<Position>, s: Line): Option<Position> {
    var i := FindLine(core, s);
    if i < |core| then Some(core[i]) else None
  }

  lemma {:induction false} LegTouchesItsLine(b: Book, eq: real, before: real, t: Target, prices: Prices, costBps: CostModel, s: Line)
    requires b.Valid() && s != t.line
    ensures PositionOf(TradeLine(b, eq, before, t, prices, costBps).core, s) == PositionOf(b.core, s)
  {
    hide Quantity, Delta, LegCost, FindLine;
    var b' := TradeLine(b, eq, before, t, prices, costBps);
    TradeLineValid(b, eq, before, t, prices, costBps);
    SameLineFound(b.core, b'.core, s, t.line);
  }

  lemma SameLineFound(core: seq<Position>, core': seq<Position>, s: Line, other: Line)
    requires s != other && |core| <= |core'| <= |core| + 1
    requires forall k, l :: 0 <= k < l < |core'| ==> core'[k].line != core'[l].line
    requires forall k :: 0 <= k < |core| && core[k].line != other ==> core'[k] == core[k]
    requires forall k :: 0 <= k < |core| && core[k].line == other ==> core'[k].line == other
    requires |core'| > |core| ==> core'[|core|].line == other
    ensures PositionOf(core', s) == PositionOf(core, s)
  {
    var i, j := FindLine(core, s), FindLine(core', s);
    if i < |core| {
      assert core'[i] == core[i];
    }
    if j < |core'| {
      assert j < |core| && core[j] == core'[j];
    }
  }

  /** What a position is worth, and what it gains by a new price; nothing where there is none. */
  function Worth(p: Option<Position>): real {
    if p.Some? then p.value.qty * p.value.price else 0.0
  }

  function MoveTo(p: Option<Position>, px: real): real {
    if p.Some? then p.value.qty * (px - p.value.price) else 0.0
  }

  /** What a filled leg makes of its line: the price is the fill's, and the value is what it was at its old price
      with the move to the fill price and the wanted change. */
  lemma LegOfLine(b: Book, eq: real, before: real, t: Target, prices: Prices, costBps: CostModel)
    requires b.Valid() && Traded(b.core, before, t, prices)
    ensures var p, p', px := PositionOf(b.core, t.line),
                             PositionOf(TradeLine(b, eq, before, t, prices, costBps).core, t.line),
                             FillPrice(b.core, t.line, prices).value;
      && p'.Some? && p'.value.price == px
      && Worth(p') == Worth(p) + MoveTo(p, px) + t.weight * eq - before * eq
  {
    var b' := TradeLine(b, eq, before, t, prices, costBps);
    TradeLineValid(b, eq, before, t, prices, costBps);
    var i, px, delta := FindLine(b.core, t.line), FillPrice(b.core, t.line, prices).value, Delta(t, before, eq);
    DeltaSplits(t, before, eq);
    hide LegCost, FillPrice, PriceMove, Delta, Quantity, Position.Value, FindLine, Book.Valid;
    LineFoundAt(b'.core, t.line, i);
    if i < |b.core| {
      Rebought(b.core[i], px, delta);
    } else {
      BoughtNew(t.line, px, delta);
    }
  }

  lemma LineFoundAt(core: seq<Position>, s: Line, i: nat)
    requires i < |core| && core[i].line == s && forall k, l :: 0 <= k < l < |core| ==> core[k].line != core[l].line
    ensures FindLine(core, s) == i
  {
  }

  /** The first legs leave a line alone that they do not order. */
  lemma {:induction false} LineWaits(start: Book, targets: seq<Target>, n: nat, prices: Prices, costBps: CostModel, s: Line)
    requires start.Valid() && start.Equity() > 0.0 && n <= |targets| && forall k :: 0 <= k < n ==> targets[k].line != s
    ensures PositionOf(TradedTo(start, targets, n, prices, costBps).core, s) == PositionOf(start.core, s)
  {
    hide TradeLine, SignedWeight, Book.Equity, PositionOf;
    if n > 0 {
      LineWaits(start, targets, n - 1, prices, costBps, s);
      LegTouchesItsLine(TradedTo(start, targets, n - 1, prices, costBps), start.Equity(),
                        SignedWeight(start, targets[n - 1].line), targets[n - 1], prices, costBps, s);
    }
  }

  /** Later legs leave a line alone too. */
  lemma {:induction false} LineStays(start: Book, targets: seq<Target>, m: nat, n: nat, prices: Prices, costBps: CostModel, s: Line)
    requires start.Valid() && start.Equity() > 0.0 && m <= n <= |targets| && forall k :: m <= k < n ==> targets[k].line != s
    ensures PositionOf(TradedTo(start, targets, n, prices, costBps).core, s)
         == PositionOf(TradedTo(start, targets, m, prices, costBps).core, s)
  {
    hide TradeLine, SignedWeight, Book.Equity, PositionOf;
    if m < n {
      LineStays(start, targets, m, n - 1, prices, costBps, s);
      LegTouchesItsLine(TradedTo(start, targets, n - 1, prices, costBps), start.Equity(),
                        SignedWeight(start, targets[n - 1].line), targets[n - 1], prices, costBps, s);
    }
  }

  lemma SameFillPrice(a: seq<Position>, b: seq<Position>, s: Line, prices: Prices)
    requires PositionOf(a, s) == PositionOf(b, s)
    ensures FillPrice(a, s, prices) == FillPrice(b, s, prices)
  {
    hide FindLine;
  }

  /** A whole core trade, every line ordered once: each filled line ends at its target weight of the equity the
      trade started from, its swing exposure included, off by exactly its own re-mark to the fill price; every
      other line keeps its position. */
  lemma {:induction false} CoreTradeReachesTargets(start: Book, targets: seq<Target>, k: nat, prices: Prices, costBps: CostModel)
    requires start.Valid() && start.Equity() > 0.0 && OncePerLine(targets) && k < |targets|
    ensures var t, b := targets[k], TradedCore(start, targets, prices, costBps);
      var p, p' := PositionOf(start.core, t.line), PositionOf(b.core, t.line);
      if Traded(start.core, SignedWeight(start, t.line), t, prices) then
        var px := FillPrice(start.core, t.line, prices).value;
        && p'.Some? && p'.value.price == px
        && Worth(p') + ExposureOn(start.swing, t.line) == t.weight * start.Equity() + MoveTo(p, px)
      else p' == p
  {
    hide TradedTo, TradeLine, Book.Equity, SignedWeight, ExposureOn, PriceMove, Position.Value, FillPrice, PositionOf,
         MIN_CHANGE;
    var t := targets[k];
    var b := TradedTo(start, targets, k, prices, costBps);
    LineWaits(start, targets, k, prices, costBps, t.line);
    LineStays(start, targets, k + 1, |targets|, prices, costBps, t.line);
    LegInTrade(start, targets, k, prices, costBps);
  }

  lemma {:induction false} LegInTrade(start: Book, targets: seq<Target>, k: nat, prices: Prices, costBps: CostModel)
    requires start.Valid() && start.Equity() > 0.0 && k < |targets|
    requires var b, s := TradedTo(start, targets, k, prices, costBps), targets[k].line;
      PositionOf(b.core, s) == PositionOf(start.core, s)
    ensures var t, b := targets[k], TradedTo(start, targets, k + 1, prices, costBps);
      var p, p' := PositionOf(start.core, t.line), PositionOf(b.core, t.line);
      if Traded(start.core, SignedWeight(start, t.line), t, prices) then
        var px := FillPrice(start.core, t.line, prices).value;
        && p'.Some? && p'.value.price == px
        && Worth(p') + ExposureOn(start.swing, t.line) == t.weight * start.Equity() + MoveTo(p, px)
      else p' == p
  {
    hide Book.Equity, SignedWeight, ExposureOn, Worth, MoveTo, TradeLine, FillPrice, PositionOf;
    var t, eq := targets[k], start.Equity();
    var w, b := SignedWeight(start, t.line), TradedTo(start, targets, k, prices, costBps);
    assert TradedTo(start, targets, k + 1, prices, costBps) == TradeLine(b, eq, w, t, prices, costBps);
    hide TradedTo;
    SameFillPrice(start.core, b.core, t.line, prices);
    WeightIsWorth(start, t.line);
    if Traded(start.core, w, t, prices) {
      LegOfLine(b, eq, w, t, prices, costBps);
    } else {
      NoLeg(b, eq, w, t, prices, costBps);
    }
  }

  lemma NoLeg(b: Book, eq: real, before: real, t: Target, prices: Prices, costBps: CostModel)
    requires !Traded(b.core, before, t, prices)
    ensures TradeLine(b, eq, before, t, prices, costBps) == b
  {
  }

  lemma WeightIsWorth(b: Book, s: Line)
    requires b.Valid() && b.Equity() > 0.0
    ensures var p := PositionOf(b.core, s);
      SignedWeight(b, s) * b.Equity() == Worth(p) + ExposureOn(b.swing, s)
  {
    WeightTimesEquity(b, s);
    hide Book.Equity, SignedWeight, ExposureOn, FindLine;
  }

  /** And a line that no target names keeps its position. */
  lemma {:induction false} OtherLinesWait(start: Book, targets: seq<Target>, prices: Prices, costBps: CostModel, s: Line)
    requires start.Valid() && forall k :: 0 <= k < |targets| ==> targets[k].line != s
    ensures PositionOf(TradedCore(start, targets, prices, costBps).core, s) == PositionOf(start.core, s)
  {
    hide TradedTo, Book.Equity, PositionOf;
    if start.Equity() > 0.0 {
      LineWaits(start, targets, |targets|, prices, costBps, s);
    }
  }
}
