/** The paper book as a value: what each operation does to it, and what every sequence of them keeps. */
module PaperLedger {
  import opened Wrappers
  import opened Vectors

  type Line = string
  type TradeId = string
  type Prices = Line -> Option<real>

  datatype Side = Long | Short {
    function Sign(): real {
      if Long? then 1.0 else -1.0
    }
  }

  datatype Status = Open | Closed

  /** A core line: its quantity and its last price. */
  datatype Position = Position(line: Line, qty: real, price: real) {
    function Value(): real {
      qty * price
    }
  }

  /** A swing trade. An absent or zero last price stands for the entry reference. */
  datatype Swing = Swing(id: TradeId, ticker: Line, side: Side, line: Line, notional: real, entryRef: real,
                         stopPct: real, targetPct: real, entryDay: int, lastPrice: Option<real>, status: Status,
                         exitReason: Option<string>, exitDay: Option<string>, daysHeld: int, netRet: Option<real>)
  {
    function Mark(): real {
      if lastPrice.Some? && lastPrice.value != 0.0 then lastPrice.value else entryRef
    }

    /** The move from the entry reference to a price, signed by the side. */
    function Gross(px: real): real
      requires entryRef != 0.0
    {
      side.Sign() * (px / entryRef - 1.0)
    }

    /** The P&L of the whole position at a price. */
    function PnlAt(px: real): real
      requires entryRef != 0.0
    {
      notional * Gross(px)
    }

    function Pnl(): real
      requires entryRef != 0.0
    {
      PnlAt(Mark())
    }

    /** What an open trade adds to equity: the notional taken out of cash plus its unrealised P&L. */
    function Invested(): real
      requires entryRef != 0.0
    {
      notional + Pnl()
    }

    /** The declared cost of one leg of the trade. */
    function LegCost(leg: real): real {
      notional * leg
    }

    /** What closing at a price pays back into cash: notional x (1 + gross - exit leg). */
    function Payout(px: real, leg: real): real
      requires entryRef != 0.0
    {
      notional * (1.0 + Gross(px) - leg)
    }

    /** Signed exposure at the last mark. */
    function Exposure(): real
      requires entryRef != 0.0
    {
      side.Sign() * notional * Mark() / entryRef
    }
  }

  /** One row of the private ledger; a row written before costs were logged has none. */
  datatype LedgerRow =
    | CoreFill(line: Line, cost: Option<real>)
    | SwingEntry(trade: TradeId, cost: Option<real>)
    | SwingExit(trade: TradeId, cost: Option<real>)

  datatype Book = Book(startNav: real, cash: real, core: seq<Position>, swing: seq<Swing>,
                       declared: real, peakNav: real, ledger: seq<LedgerRow>)
  {
    /** Dictionaries keep one entry a key; every trade has an entry reference to divide by. */
    predicate Valid() {
      && (forall i, j :: 0 <= i < j < |core| ==> core[i].line != core[j].line)
      && (forall i, j :: 0 <= i < j < |swing| ==> swing[i].id != swing[j].id)
      && Priced(swing)
    }

    /** The declared cost of one swing leg, as a fraction. */
    function Leg(): real {
      declared / 100.0
    }

    function Equity(): real
      requires Priced(swing)
    {
      cash + CoreValue(core) + SwingValue(swing)
    }
  }

  predicate Priced(swing: seq<Swing>) {
    forall i :: 0 <= i < |swing| ==> swing[i].entryRef > 0.0
  }

  function CoreValue(core: seq<Position>): real {
    if |core| == 0 then 0.0 else CoreValue(core[..|core| - 1]) + core[|core| - 1].Value()
  }

  /** What one trade adds to equity. */
  function Contribution(t: Swing): real
    requires t.entryRef > 0.0
  {
    if t.status.Open? then t.Invested() else 0.0
  }

  function SwingValue(swing: seq<Swing>): real
    requires Priced(swing)
  {
    if |swing| == 0 then 0.0 else SwingValue(swing[..|swing| - 1]) + Contribution(swing[|swing| - 1])
  }

  /** The exposure of the open trades carried on a line. */
  function ExposureOn(swing: seq<Swing>, s: Line): real
    requires Priced(swing)
  {
    if |swing| == 0 then 0.0 else
    var t := swing[|swing| - 1];
    ExposureOn(swing[..|swing| - 1], s) + if t.status.Open? && t.line == s then t.Exposure() else 0.0
  }

  function FindLine(core: seq<Position>, s: Line): (i: nat)
    ensures i <= |core| && (i < |core| ==> core[i].line == s)
    ensures i == |core| ==> forall k :: 0 <= k < |core| ==> core[k].line != s
  {
    if |core| == 0 then 0 else
    var i := FindLine(core[..|core| - 1], s);
    if i < |core| - 1 then i else if core[|core| - 1].line == s then |core| - 1 else |core|
  }

  function FindTrade(swing: seq<Swing>, id: TradeId): (i: nat)
    ensures i <= |swing| && (i < |swing| ==> swing[i].id == id)
    ensures i == |swing| ==> forall k :: 0 <= k < |swing| ==> swing[k].id != id
  {
    if |swing| == 0 then 0 else
    var i := FindTrade(swing[..|swing| - 1], id);
    if i < |swing| - 1 then i else if swing[|swing| - 1].id == id then |swing| - 1 else |swing|
  }

  /** The signed weight of a line: its core position and the open trades carried on it. */
  function SignedWeight(b: Book, s: Line): real
    requires Priced(b.swing) && b.Equity() > 0.0
  {
    var i := FindLine(b.core, s);
    (if i < |b.core| then b.core[i].Value() / b.Equity() else 0.0) + ExposureOn(b.swing, s) / b.Equity()
  }

  // ------------------------------------------------------------------ marks

  predicate Usable(px: Option<real>) {
    px.Some? && px.value > 0.0
  }

  function MarkPosition(p: Position, prices: Prices): Position {
    var px := prices(p.line);
    if Usable(px) then p.(price := px.value) else p
  }

  function MarkAll(core: seq<Position>, prices: Prices): (c: seq<Position>)
    ensures |c| == |core| && forall k :: 0 <= k < |c| ==> c[k].line == core[k].line && c[k].qty == core[k].qty
  {
    seq(|core|, k requires 0 <= k < |core| => MarkPosition(core[k], prices))
  }

  function Marked(b: Book, prices: Prices): (b': Book)
    requires b.Valid()
    ensures b'.Valid()
  {
    b.(core := MarkAll(b.core, prices))
  }

  // ------------------------------------------------------------------ core trades

  /** The smallest weight change that is traded. */
  const MIN_CHANGE := 0.000001

  datatype Target = Target(line: Line, weight: real)

  /** The declared cost of a leg in basis points of NAV, from the line's weight before and after. */
  type CostModel = (Line, real, real) -> real

  /** `prices.get(s) or core price`: an absent or zero price falls back to the position's. */
  function FillPrice(core: seq<Position>, s: Line, prices: Prices): Option<real> {
    var px := prices(s);
    if px.Some? && px.value != 0.0 then px else
    var i := FindLine(core, s);
    if i < |core| then Some(core[i].price) else None
  }

  function LegCost(eq: real, bps: real): real {
    eq * Max(bps, 0.0) / 10000.0
  }

  /** The notional that takes a line from its weight before to its target. */
  function Delta(t: Target, before: real, eq: real): real {
    (t.weight - before) * eq
  }

  function Quantity(notional: real, px: real): real
    requires px != 0.0
  {
    notional / px
  }

  predicate Traded(core: seq<Position>, before: real, t: Target, prices: Prices) {
    Abs(t.weight - before) > MIN_CHANGE && Usable(FillPrice(core, t.line, prices))
  }

  function Bought(core: seq<Position>, s: Line, px: real, qty: real): (c: seq<Position>)
    ensures |core| <= |c| <= |core| + 1
  {
    var i := FindLine(core, s);
    if i < |core| then core[i := Position(s, core[i].qty + qty, px)] else core + [Position(s, qty, px)]
  }

  /** One target: nothing below the threshold or without a price, else the leg at its fill price. */
  function TradeLine(b: Book, eq: real, before: real, t: Target, prices: Prices, costBps: CostModel): (b': Book)
    ensures b'.swing == b.swing && b'.declared == b.declared && |b.core| <= |b'.core|
  {
    if !Traded(b.core, before, t, prices) then b else
    var px := FillPrice(b.core, t.line, prices).value;
    var delta := Delta(t, before, eq);
    var cost := LegCost(eq, costBps(t.line, before, t.weight));
    b.(core := Bought(b.core, t.line, px, Quantity(delta, px)), cash := b.cash - (delta + cost),
       ledger := b.ledger + [CoreFill(t.line, Some(cost))])
  }

  lemma TradeLineValid(b: Book, eq: real, before: real, t: Target, prices: Prices, costBps: CostModel)
    requires b.Valid()
    ensures TradeLine(b, eq, before, t, prices, costBps).Valid()
  {
  }

  /** The first `n` targets traded, at the equity and weights of `start`. */
  function TradedTo(start: Book, targets: seq<Target>, n: nat, prices: Prices, costBps: CostModel): (b: Book)
    requires start.Valid() && start.Equity() > 0.0 && n <= |targets|
    ensures b.Valid() && b.swing == start.swing && b.declared == start.declared
  {
    if n == 0 then start else
    var b := TradedTo(start, targets, n - 1, prices, costBps);
    var t := targets[n - 1];
    TradeLineValid(b, start.Equity(), SignedWeight(start, t.line), t, prices, costBps);
    TradeLine(b, start.Equity(), SignedWeight(start, t.line), t, prices, costBps)
  }

  /** Why a core trade was not made. */
  datatype Flag = NoEquity | NoPrice(line: Line)

  predicate Unpriced(core: seq<Position>, before: real, t: Target, prices: Prices) {
    Abs(t.weight - before) > MIN_CHANGE && !Usable(FillPrice(core, t.line, prices))
  }

  /** The first `n` targets' flags: a change wanted at no usable price. */
  function FlagsTo(start: Book, targets: seq<Target>, n: nat, prices: Prices, costBps: CostModel): seq<Flag>
    requires start.Valid() && start.Equity() > 0.0 && n <= |targets|
  {
    if n == 0 then [] else
    var t := targets[n - 1];
    FlagsTo(start, targets, n - 1, prices, costBps) +
      if Unpriced(TradedTo(start, targets, n - 1, prices, costBps).core, SignedWeight(start, t.line), t, prices)
      then [NoPrice(t.line)] else []
  }

  function TradedCore(b: Book, targets: seq<Target>, prices: Prices, costBps: CostModel): (b': Book)
    requires b.Valid()
    ensures b'.Valid()
  {
    if b.Equity() <= 0.0 then b else TradedTo(b, targets, |targets|, prices, costBps)
  }

  // ------------------------------------------------------------------ swing trades

  /** A swing order: its size is a fraction of NAV. */
  datatype Ticket = Ticket(id: TradeId, ticker: Line, side: Side, line: Line, sizeNav: real, entryRef: Option<real>,
                           stopPct: real, targetPct: real, entryDay: int)

  predicate Accepted(b: Book, k: Ticket) {
    FindTrade(b.swing, k.id) == |b.swing| && Usable(k.entryRef) && k.sizeNav > 0.0
  }

  /** The sized notional of an order, at the book's equity. */
  function Notional(b: Book, k: Ticket): real
    requires b.Valid()
  {
    k.sizeNav * b.Equity()
  }

  function EntryCost(b: Book, k: Ticket): real
    requires b.Valid()
  {
    Notional(b, k) * b.declared / 100.0
  }

  function Entered(b: Book, k: Ticket): (b': Book)
    requires b.Valid()
    ensures b'.Valid()
  {
    if !Accepted(b, k) then b else
    var notional := Notional(b, k);
    b.(cash := b.cash - (notional + EntryCost(b, k)),
       swing := b.swing + [Swing(k.id, k.ticker, k.side, k.line, notional, k.entryRef.value, k.stopPct, k.targetPct, k.entryDay,
                                 k.entryRef, Open, None, None, 0, None)],
       ledger := b.ledger + [SwingEntry(k.id, Some(EntryCost(b, k)))])
  }

  datatype Exit = Exit(px: real, reason: string, day: string, daysHeld: int)

  function ClosedTrade(t: Swing, x: Exit, leg: real): (t': Swing)
    requires t.entryRef > 0.0
    ensures t'.entryRef == t.entryRef && t'.id == t.id && t'.notional == t.notional && t'.status.Closed?
  {
    t.(status := Closed, exitReason := Some(x.reason), exitDay := Some(x.day), daysHeld := x.daysHeld,
       lastPrice := Some(x.px), netRet := Some(t.Gross(x.px) - 2.0 * leg))
  }

  /** The close pays out of the trade whatever its status: it does not look at it. */
  function CloseAt(b: Book, i: nat, x: Exit): (b': Book)
    requires b.Valid() && i < |b.swing|
    ensures b'.Valid() && |b'.swing| == |b.swing|
  {
    var t := b.swing[i];
    b.(cash := b.cash + t.Payout(x.px, b.Leg()),
       swing := b.swing[i := ClosedTrade(t, x, b.Leg())],
       ledger := b.ledger + [SwingExit(t.id, Some(t.LegCost(b.Leg())))])
  }

  /** What the completed bars say about a trade: an exit with its gross return, or nothing. */
  datatype Signal = Signal(gross: real, reason: string, day: string, daysHeld: int)

  function ExitOf(t: Swing, g: Signal): Exit {
    Exit(t.entryRef * (1.0 + t.side.Sign() * g.gross), g.reason, g.day, g.daysHeld)
  }

  /** What the market says when the swing trades are settled: the days of each ticker's completed bars (None
      without a frame), the exit a trade has reached on them, and the last closes. */
  datatype Completed = Completed(bars: Line -> Option<seq<int>>, evaluate: Swing -> Option<Signal>, lastClose: Prices) {
    /** Without bars nothing is evaluated. */
    function SignalOf(t: Swing): Option<Signal> {
      if bars(t.ticker).Some? then evaluate(t) else None
    }
  }

  function DaysAfter(days: seq<int>, entry: int): nat {
    if |days| == 0 then 0 else DaysAfter(days[..|days| - 1], entry) + if days[|days| - 1] > entry then 1 else 0
  }

  /** A trade that stays open takes the last close, and counts the bars after its entry day. */
  function MarkedTrade(t: Swing, m: Completed): Swing {
    var px, days := m.lastClose(t.ticker), m.bars(t.ticker);
    if !Usable(px) then t else
    t.(lastPrice := px,
       daysHeld := if days.Some? && |days.value| > 0 then DaysAfter(days.value, t.entryDay) else t.daysHeld)
  }

  function MarkTrade(b: Book, i: nat, m: Completed): (b': Book)
    requires b.Valid() && i < |b.swing|
    ensures b'.Valid() && |b'.swing| == |b.swing|
  {
    b.(swing := b.swing[i := MarkedTrade(b.swing[i], m)])
  }

  function SettleAt(b: Book, i: nat, m: Completed): (b': Book)
    requires b.Valid() && i < |b.swing|
    ensures b'.Valid() && |b'.swing| == |b.swing|
  {
    var t := b.swing[i];
    if t.status.Closed? then b else
    if m.SignalOf(t).Some? then CloseAt(b, i, ExitOf(t, m.SignalOf(t).value)) else
    MarkTrade(b, i, m)
  }

  function SettledTo(b: Book, n: nat, m: Completed): (b': Book)
    requires b.Valid() && n <= |b.swing|
    ensures b'.Valid() && |b'.swing| == |b.swing|
  {
    if n == 0 then b else SettleAt(SettledTo(b, n - 1, m), n - 1, m)
  }

  function Settled(b: Book, m: Completed): (b': Book)
    requires b.Valid()
    ensures b'.Valid()
  {
    SettledTo(b, |b.swing|, m)
  }

  // ------------------------------------------------------------------ costs paid

  function RowCost(r: LedgerRow, swing: seq<Swing>, leg: real): real {
    if r.cost.Some? then Max(r.cost.value, 0.0)
    else if r.CoreFill? then 0.0
    else var i := FindTrade(swing, r.trade); if i < |swing| then swing[i].LegCost(leg) else 0.0
  }

  function CostsOf(rows: seq<LedgerRow>, swing: seq<Swing>, leg: real): real {
    if |rows| == 0 then 0.0
    else CostsOf(rows[..|rows| - 1], swing, leg) + RowCost(rows[|rows| - 1], swing, leg)
  }

  /** Every declared cost the fills paid, from the ledger. */
  function CostsPaid(b: Book): real {
    CostsOf(b.ledger, b.swing, b.Leg())
  }
}
