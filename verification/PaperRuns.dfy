/** Whole operations of the paper book and every run of them: equity plus the costs paid is the start NAV plus
    the price P&L, exactly as long as every cost and every close is paid for. */
module PaperRuns {
  import opened Wrappers
  import opened PaperLedger
  import opened PaperAccounts

  function TradePnlTo(start: Book, targets: seq<Target>, n: nat, prices: Prices, costBps: CostModel): real
    requires start.Valid() && start.Equity() > 0.0 && n <= |targets|
  {
    if n == 0 then 0.0 else
    var b, b' := TradedTo(start, targets, n - 1, prices, costBps), TradedTo(start, targets, n, prices, costBps);
    TradePnlTo(start, targets, n - 1, prices, costBps) + CorePnl(b.core, b'.core)
  }

  lemma {:induction false} TradesKeepAccount(start: Book, targets: seq<Target>, n: nat, prices: Prices, costBps: CostModel)
    requires start.Valid() && start.Equity() > 0.0 && n <= |targets| && RowsKnown(start.ledger, start.swing)
    ensures var b := TradedTo(start, targets, n, prices, costBps);
      RowsKnown(b.ledger, b.swing) && Account(b) == Account(start) + TradePnlTo(start, targets, n, prices, costBps)
  {
    if n > 0 {
      hide Account, CorePnl, TradeLine, SignedWeight, Book.Equity;
      TradesKeepAccount(start, targets, n - 1, prices, costBps);
      var b, t := TradedTo(start, targets, n - 1, prices, costBps), targets[n - 1];
      LineKeepsAccount(b, start.Equity(), SignedWeight(start, t.line), t, prices, costBps);
    }
  }

  function SettlePnl(b: Book, i: nat, m: Completed): real
    requires b.Valid() && i < |b.swing|
  {
    TradePnl(b.swing[i], SettleAt(b, i, m).swing[i])
  }

  /** What the ledger drops of the exit leg of a trade that leaves. */
  function SettleUnlogged(b: Book, i: nat, m: Completed): real
    requires b.Valid() && i < |b.swing|
  {
    var t := b.swing[i];
    if t.status.Open? && m.SignalOf(t).Some? then Unlogged(t.LegCost(b.Leg())) else 0.0
  }

  lemma SettleKeepsAccount(b: Book, i: nat, m: Completed)
    requires b.Valid() && i < |b.swing| && RowsKnown(b.ledger, b.swing)
    ensures var b' := SettleAt(b, i, m);
      && RowsKnown(b'.ledger, b'.swing)
      && Account(b') == Account(b) + SettlePnl(b, i, m) + SettleUnlogged(b, i, m)
  {
    var t := b.swing[i];
    assert t.entryRef > 0.0;
    hide Account, TradePnl, CloseAt, MarkTrade, ExitOf, RowsKnown, Unlogged, Book.Valid;
    if t.status.Open? && m.SignalOf(t).Some? {
      CloseKeepsAccount(b, i, ExitOf(t, m.SignalOf(t).value));
    } else if t.status.Open? {
      MarkKeepsAccount(b, i, m);
    } else {
      NoTradePnl(t);
    }
  }

  lemma NoTradePnl(t: Swing)
    requires t.entryRef > 0.0 && t.status.Closed?
    ensures TradePnl(t, t) == 0.0
  {
  }

  lemma MarkKeepsAccount(b: Book, i: nat, m: Completed)
    requires b.Valid() && i < |b.swing| && RowsKnown(b.ledger, b.swing) && b.swing[i].status.Open?
    ensures var b' := MarkTrade(b, i, m);
      && RowsKnown(b'.ledger, b'.swing)
      && Account(b') == Account(b) + TradePnl(b.swing[i], b'.swing[i])
  {
    hide Swing.Gross, CoreValue, CostsOf, SwingValue;
    var b', t := MarkTrade(b, i, m), b.swing[i];
    CostsStay(b.ledger, b.swing, b'.swing, b.Leg());
    SwingValueUpdate(b.swing, i, b'.swing[i]);
    assert b.swing[i := t] == b.swing;
    assert b'.swing == b.swing[i := b'.swing[i]];
    SamePnlAt(t, b'.swing[i], b'.swing[i].Mark());
    hide Swing.PnlAt;
  }

  lemma SamePnlAt(t: Swing, u: Swing, px: real)
    requires t.entryRef == u.entryRef && t.entryRef != 0.0 && t.side == u.side && t.notional == u.notional
    ensures t.PnlAt(px) == u.PnlAt(px)
  {
  }

  /** The trades settled so far, with the price P&L and the dropped costs of the exits. */
  datatype Tally = Tally(book: Book, pnl: real, unlogged: real)

  function SettleOne(t: Tally, i: nat, m: Completed): (t': Tally)
    requires t.book.Valid() && i < |t.book.swing|
    ensures t'.book.Valid() && |t'.book.swing| == |t.book.swing|
    ensures t'.book == SettleAt(t.book, i, m)
  {
    Tally(SettleAt(t.book, i, m), t.pnl + SettlePnl(t.book, i, m),
          t.unlogged + SettleUnlogged(t.book, i, m))
  }

  function SettleTally(b: Book, n: nat, m: Completed): (t: Tally)
    requires b.Valid() && n <= |b.swing|
    ensures t.book == SettledTo(b, n, m)
  {
    if n == 0 then Tally(b, 0.0, 0.0) else SettleOne(SettleTally(b, n - 1, m), n - 1, m)
  }

  ghost predicate Balanced(b: Book, t: Tally)
    requires b.Valid()
  {
    t.book.Valid() && RowsKnown(t.book.ledger, t.book.swing) && Account(t.book) == Account(b) + t.pnl + t.unlogged
  }

  lemma BalancedStep(b: Book, t: Tally, i: nat, m: Completed)
    requires b.Valid() && Balanced(b, t) && i < |t.book.swing|
    ensures Balanced(b, SettleOne(t, i, m))
  {
    hide Account, SettleAt, SettlePnl, SettleUnlogged, RowsKnown, Book.Valid;
    SettleKeepsAccount(t.book, i, m);
  }

  lemma {:induction false} SettlesKeepAccount(b: Book, n: nat, m: Completed)
    requires b.Valid() && n <= |b.swing| && RowsKnown(b.ledger, b.swing)
    ensures Balanced(b, SettleTally(b, n, m))
  {
    hide Account, RowsKnown, SettleOne, Book.Valid, SettledTo;
    if n > 0 {
      hide Balanced;
      SettlesKeepAccount(b, n - 1, m);
      var t := SettleTally(b, n - 1, m);
      assert t.book.Valid() && |t.book.swing| == |b.swing|;
      BalancedStep(b, t, n - 1, m);
    }
  }

  // ------------------------------------------------------------------ what a settlement does to each trade

  /** A settled trade: a closed one stays, one with an exit closes at it, any other is marked. */
  function SettledTrade(t: Swing, m: Completed, leg: real): Swing
    requires t.entryRef > 0.0
  {
    if t.status.Closed? then t
    else if m.SignalOf(t).Some? then ClosedTrade(t, ExitOf(t, m.SignalOf(t).value), leg)
    else MarkedTrade(t, m)
  }

  /** What a settlement makes of the `i`-th trade of a book. */
  function SettledAt(b: Book, i: nat, m: Completed): Swing
    requires b.Valid() && i < |b.swing|
  {
    SettledTrade(b.swing[i], m, b.Leg())
  }

  lemma SettleAtOne(b: Book, n: nat, m: Completed, i: nat)
    requires b.Valid() && n < |b.swing| && i < |b.swing|
    ensures SettleAt(b, n, m).swing[i] == if i == n then SettledAt(b, n, m) else b.swing[i]
    ensures SettleAt(b, n, m).declared == b.declared
  {
    hide ClosedTrade, MarkedTrade, Swing.Payout, ExitOf, Completed.SignalOf;
  }

  lemma SameSettled(a: Book, b: Book, i: nat, m: Completed)
    requires a.Valid() && b.Valid() && i < |a.swing| == |b.swing| && a.swing[i] == b.swing[i] && a.declared == b.declared
    ensures SettledAt(a, i, m) == SettledAt(b, i, m)
  {
    hide SettledTrade;
  }

  /** A settlement treats every trade once and by itself, whatever it does to the others. */
  lemma {:induction false} SettlesEachTrade(b: Book, n: nat, m: Completed, i: nat)
    requires b.Valid() && n <= |b.swing| && i < |b.swing|
    ensures var b' := SettledTo(b, n, m);
      && b'.declared == b.declared
      && b'.swing[i] == if i < n then SettledAt(b, i, m) else b.swing[i]
  {
    hide SettleAt, SettledAt, Book.Valid;
    if n > 0 {
      SettlesEachTrade(b, n - 1, m, i);
      SettledOneMore(b, n - 1, m);
      var before := SettledTo(b, n - 1, m);
      hide SettledTo;
      SettleAtOne(before, n - 1, m, i);
      if i == n - 1 {
        SameSettled(before, b, i, m);
      }
    }
  }

  lemma SettledOneMore(b: Book, n: nat, m: Completed)
    requires b.Valid() && n < |b.swing|
    ensures SettledTo(b, n + 1, m) == SettleAt(SettledTo(b, n, m), n, m)
  {
  }

  // ------------------------------------------------------------------ operations

  datatype Op =
    | MarkOp(prices: Prices)
    | TradeOp(targets: seq<Target>, prices: Prices, costBps: CostModel)
    | EnterOp(ticket: Ticket)
    | CloseOp(id: TradeId, out: Exit)
    | SettleOp(completed: Completed)

  /** A close by id; an unknown id raises and changes nothing. */
  function ClosedById(b: Book, id: TradeId, x: Exit): (b': Book)
    requires b.Valid()
    ensures b'.Valid()
  {
    var i := FindTrade(b.swing, id);
    if i < |b.swing| then CloseAt(b, i, x) else b
  }

  function Apply(b: Book, op: Op): (b': Book)
    requires b.Valid()
    ensures b'.Valid()
  {
    match op
    case MarkOp(prices) => Marked(b, prices)
    case TradeOp(targets, prices, costBps) => TradedCore(b, targets, prices, costBps)
    case EnterOp(k) => Entered(b, k)
    case CloseOp(id, x) => ClosedById(b, id, x)
    case SettleOp(m) => Settled(b, m)
  }

  /** The price move of one operation. */
  function Pnl(b: Book, op: Op): real
    requires b.Valid()
  {
    match op
    case MarkOp(prices) => CorePnl(b.core, MarkAll(b.core, prices))
    case TradeOp(targets, prices, costBps) =>
      if b.Equity() <= 0.0 then 0.0 else TradePnlTo(b, targets, |targets|, prices, costBps)
    case EnterOp(_) => 0.0
    case CloseOp(id, x) =>
      var i := FindTrade(b.swing, id);
      if i < |b.swing| then TradePnl(b.swing[i], CloseAt(b, i, x).swing[i]) else 0.0
    case SettleOp(m) => SettleTally(b, |b.swing|, m).pnl
  }

  /** What one operation adds to the account beside the price move: the negative costs the ledger's sum
      leaves out, and what a close of a trade already closed pays out again. */
  function Leak(b: Book, op: Op): real
    requires b.Valid()
  {
    match op
    case EnterOp(k) => if Accepted(b, k) then Unlogged(EntryCost(b, k)) else 0.0
    case CloseOp(id, x) =>
      var i := FindTrade(b.swing, id);
      if i < |b.swing| then CloseLeak(b.swing[i], x, b.Leg()) else 0.0
    case SettleOp(m) => SettleTally(b, |b.swing|, m).unlogged
    case _ => 0.0
  }

  lemma CloseOpKeepsAccount(b: Book, id: TradeId, x: Exit)
    requires b.Valid() && RowsKnown(b.ledger, b.swing)
    ensures var op := CloseOp(id, x);
      && RowsKnown(Apply(b, op).ledger, Apply(b, op).swing)
      && Account(Apply(b, op)) == Account(b) + Pnl(b, op) + Leak(b, op)
  {
    var i := FindTrade(b.swing, id);
    if i < |b.swing| {
      hide Account, CloseAt, CloseLeak, TradePnl, RowsKnown;
      CloseKeepsAccount(b, i, x);
    }
  }

  lemma OperationKeepsAccount(b: Book, op: Op)
    requires b.Valid() && RowsKnown(b.ledger, b.swing)
    ensures RowsKnown(Apply(b, op).ledger, Apply(b, op).swing)
    ensures Account(Apply(b, op)) == Account(b) + Pnl(b, op) + Leak(b, op)
  {
    match op {
      case MarkOp(prices) => MarkMoves(b.core, prices);
      case TradeOp(targets, prices, costBps) =>
        hide Account;
        if b.Equity() > 0.0 {
          TradesKeepAccount(b, targets, |targets|, prices, costBps);
        }
      case EnterOp(k) =>
        hide Account;
        EntryKeepsAccount(b, k);
      case CloseOp(id, x) =>
        hide Account, Apply, Pnl, Leak;
        CloseOpKeepsAccount(b, id, x);
      case SettleOp(m) =>
        hide Account;
        SettlesKeepAccount(b, |b.swing|, m);
    }
  }

  // ------------------------------------------------------------------ runs

  function After(b: Book, ops: seq<Op>): (b': Book)
    requires b.Valid()
    ensures b'.Valid()
    decreases |ops|
  {
    if |ops| == 0 then b else Apply(After(b, ops[..|ops| - 1]), ops[|ops| - 1])
  }

  function TotalPnl(b: Book, ops: seq<Op>): real
    requires b.Valid()
    decreases |ops|
  {
    if |ops| == 0 then 0.0 else
    TotalPnl(b, ops[..|ops| - 1]) + Pnl(After(b, ops[..|ops| - 1]), ops[|ops| - 1])
  }

  function TotalLeak(b: Book, ops: seq<Op>): real
    requires b.Valid()
    decreases |ops|
  {
    if |ops| == 0 then 0.0 else
    TotalLeak(b, ops[..|ops| - 1]) + Leak(After(b, ops[..|ops| - 1]), ops[|ops| - 1])
  }

  /** Over every run of marks, core trades, entries, closes and settlements, equity plus the costs paid moves
      by the price P&L, and by the negative costs and second payouts the accounts do not show. */
  lemma {:induction false} RunKeepsAccount(b: Book, ops: seq<Op>)
    requires b.Valid() && RowsKnown(b.ledger, b.swing)
    ensures RowsKnown(After(b, ops).ledger, After(b, ops).swing)
    ensures Account(After(b, ops)) == Account(b) + TotalPnl(b, ops) + TotalLeak(b, ops)
    decreases |ops|
  {
    if |ops| > 0 {
      hide Account, Apply, Pnl, Leak;
      RunKeepsAccount(b, ops[..|ops| - 1]);
      OperationKeepsAccount(After(b, ops[..|ops| - 1]), ops[|ops| - 1]);
    }
  }

  // ------------------------------------------------------------------ exactly when nothing leaks

  /** An entry is paid in full when its declared cost is not negative, and a close when its trade is open or
      there is nothing to pay out again. */
  predicate Paid(b: Book, op: Op)
    requires b.Valid()
  {
    match op
    case EnterOp(k) => Accepted(b, k) ==> b.Equity() >= 0.0 || b.declared == 0.0
    case CloseOp(id, x) =>
      var i := FindTrade(b.swing, id);
      i < |b.swing| ==> b.swing[i].status.Open? || b.swing[i].notional * (1.0 + b.swing[i].Gross(x.px)) == 0.0
    case _ => true
  }

  /** The declared leg of every trade is at least zero. */
  predicate CostsNonNegative(b: Book) {
    b.declared >= 0.0 && (b.declared == 0.0 || forall i :: 0 <= i < |b.swing| ==> b.swing[i].notional >= 0.0)
  }

  lemma LegIsNonNegative(b: Book, i: nat)
    requires CostsNonNegative(b) && i < |b.swing|
    ensures b.swing[i].LegCost(b.Leg()) >= 0.0 && Unlogged(b.swing[i].LegCost(b.Leg())) == 0.0
  {
    if b.declared > 0.0 {
      assert b.swing[i].notional * b.Leg() >= 0.0;
    }
  }

  lemma SettleStaysNonNegative(b: Book, i: nat, m: Completed)
    requires b.Valid() && i < |b.swing| && CostsNonNegative(b)
    ensures CostsNonNegative(SettleAt(b, i, m)) && SettleUnlogged(b, i, m) == 0.0
  {
    LegIsNonNegative(b, i);
    hide Swing.Gross, Swing.Payout, ExitOf, Swing.LegCost, Unlogged;
  }

  predicate NothingDropped(t: Tally) {
    CostsNonNegative(t.book) && t.unlogged == 0.0
  }

  lemma NothingDroppedStep(t: Tally, i: nat, m: Completed)
    requires t.book.Valid() && i < |t.book.swing| && NothingDropped(t)
    ensures NothingDropped(SettleOne(t, i, m))
  {
    hide SettleAt, SettlePnl, SettleUnlogged, Book.Valid, CostsNonNegative;
    SettleStaysNonNegative(t.book, i, m);
  }

  lemma {:induction false} SettlesStayNonNegative(b: Book, n: nat, m: Completed)
    requires b.Valid() && n <= |b.swing| && CostsNonNegative(b)
    ensures NothingDropped(SettleTally(b, n, m))
  {
    hide SettleOne, Book.Valid, SettledTo, CostsNonNegative;
    if n > 0 {
      hide NothingDropped;
      SettlesStayNonNegative(b, n - 1, m);
      var t := SettleTally(b, n - 1, m);
      assert t.book.Valid() && |t.book.swing| == |b.swing|;
      NothingDroppedStep(t, n - 1, m);
    }
  }

  lemma EntryLeaks(b: Book, k: Ticket)
    requires b.Valid() && CostsNonNegative(b) && Accepted(b, k)
    ensures Unlogged(EntryCost(b, k)) == 0.0 <==> Paid(b, EnterOp(k))
    ensures Paid(b, EnterOp(k)) ==> CostsNonNegative(Entered(b, k))
  {
    EntryCostSign(b, k);
    hide EntryCost, Book.Equity;
    if b.Equity() >= 0.0 {
      SizedNotional(k.sizeNav, b.Equity());
    }
  }

  lemma SizedNotional(s: real, e: real)
    requires s > 0.0 && e >= 0.0
    ensures s * e >= 0.0
  {
  }

  lemma CloseLeaks(b: Book, i: nat, x: Exit)
    requires b.Valid() && CostsNonNegative(b) && i < |b.swing|
    ensures CloseLeak(b.swing[i], x, b.Leg()) == 0.0 <==>
            b.swing[i].status.Open? || b.swing[i].notional * (1.0 + b.swing[i].Gross(x.px)) == 0.0
    ensures CostsNonNegative(CloseAt(b, i, x))
  {
    LegIsNonNegative(b, i);
    hide Swing.Gross, Swing.LegCost, Swing.Payout, Unlogged;
  }

  /** An operation leaks nothing exactly when it is paid for, and then no declared leg turns negative. */
  lemma OperationLeaks(b: Book, op: Op)
    requires b.Valid() && CostsNonNegative(b)
    ensures Leak(b, op) == 0.0 <==> Paid(b, op)
    ensures Paid(b, op) ==> CostsNonNegative(Apply(b, op))
  {
    match op {
      case MarkOp(_) =>
      case TradeOp(targets, prices, costBps) =>
      case EnterOp(k) =>
        if Accepted(b, k) {
          hide CostsNonNegative, Entered, Accepted, Book.Equity, Unlogged, EntryCost;
          EntryLeaks(b, k);
        }
      case CloseOp(id, x) =>
        var i := FindTrade(b.swing, id);
        hide CostsNonNegative, CloseAt, CloseLeak, Swing.Gross;
        if i < |b.swing| {
          CloseLeaks(b, i, x);
        }
      case SettleOp(m) =>
        hide CostsNonNegative;
        SettlesStayNonNegative(b, |b.swing|, m);
    }
  }

  /** After the first `n` operations the account is the start's plus the price P&L. */
  ghost predicate BalancedAfter(b: Book, ops: seq<Op>, n: nat)
    requires b.Valid() && n <= |ops|
  {
    Account(After(b, ops[..n])) == Account(b) + TotalPnl(b, ops[..n])
  }

  predicate PaidAt(b: Book, ops: seq<Op>, n: nat)
    requires b.Valid() && n < |ops|
  {
    Paid(After(b, ops[..n]), ops[n])
  }

  lemma OneMore(b: Book, ops: seq<Op>, n: nat)
    requires b.Valid() && n < |ops|
    ensures After(b, ops[..n + 1]) == Apply(After(b, ops[..n]), ops[n])
    ensures TotalLeak(b, ops[..n + 1]) == TotalLeak(b, ops[..n]) + Leak(After(b, ops[..n]), ops[n])
  {
    assert ops[..n + 1][..n] == ops[..n];
    hide Apply, Leak, Pnl;
  }

  lemma BalancedIsNoLeak(b: Book, ops: seq<Op>, n: nat)
    requires b.Valid() && RowsKnown(b.ledger, b.swing) && n <= |ops|
    ensures BalancedAfter(b, ops, n) <==> TotalLeak(b, ops[..n]) == 0.0
  {
    hide Account, After, TotalPnl, TotalLeak, RowsKnown;
    RunKeepsAccount(b, ops[..n]);
  }

  /** The book is balanced after each of the first `n` operations, and at the start. */
  ghost predicate AllBalanced(b: Book, ops: seq<Op>, n: nat)
    requires b.Valid() && n <= |ops|
  {
    forall k :: 0 <= k <= n ==> BalancedAfter(b, ops, k)
  }

  predicate AllPaid(b: Book, ops: seq<Op>, n: nat)
    requires b.Valid() && n <= |ops|
  {
    forall k :: 0 <= k < n ==> PaidAt(b, ops, k)
  }

  lemma AllOfOneMore(b: Book, ops: seq<Op>, n: nat)
    requires b.Valid() && n < |ops|
    ensures AllBalanced(b, ops, n + 1) <==> AllBalanced(b, ops, n) && BalancedAfter(b, ops, n + 1)
    ensures AllPaid(b, ops, n + 1) <==> AllPaid(b, ops, n) && PaidAt(b, ops, n)
  {
    hide BalancedAfter, PaidAt;
  }

  lemma PaidStep(b: Book, ops: seq<Op>, n: nat)
    requires b.Valid() && n < |ops| && TotalLeak(b, ops[..n]) == 0.0 && CostsNonNegative(After(b, ops[..n]))
    ensures PaidAt(b, ops, n) <==> TotalLeak(b, ops[..n + 1]) == 0.0
    ensures PaidAt(b, ops, n) ==> CostsNonNegative(After(b, ops[..n + 1]))
  {
    hide After, TotalLeak, CostsNonNegative, Apply, Leak, Paid;
    OneMore(b, ops, n);
    OperationLeaks(After(b, ops[..n]), ops[n]);
  }

  lemma {:induction false} BalancedExactly(b: Book, ops: seq<Op>, n: nat)
    requires b.Valid() && RowsKnown(b.ledger, b.swing) && CostsNonNegative(b) && n <= |ops|
    ensures AllBalanced(b, ops, n) <==> AllPaid(b, ops, n)
    ensures AllPaid(b, ops, n) ==> CostsNonNegative(After(b, ops[..n])) && BalancedAfter(b, ops, n)
    decreases n
  {
    hide BalancedAfter, CostsNonNegative, RowsKnown, TotalLeak, PaidAt;
    BalancedIsNoLeak(b, ops, n);
    if n == 0 {
      NoLeakYet(b, ops);
    } else {
      hide After, AllBalanced, AllPaid;
      BalancedExactly(b, ops, n - 1);
      BalancedIsNoLeak(b, ops, n - 1);
      AllOfOneMore(b, ops, n - 1);
      if AllPaid(b, ops, n - 1) {
        PaidStep(b, ops, n - 1);
      }
    }
  }

  lemma NoLeakYet(b: Book, ops: seq<Op>)
    requires b.Valid()
    ensures TotalLeak(b, ops[..0]) == 0.0
  {
  }

  /** A book as it is started: the whole NAV in cash. */
  function Started(nav: real, declared: real): (b: Book)
    requires nav > 0.0
    ensures b.Valid() && RowsKnown(b.ledger, b.swing) && Account(b) == nav
    ensures declared >= 0.0 ==> CostsNonNegative(b)
  {
    Book(nav, nav, [], [], declared, nav, [])
  }

  /** Exactly the runs of a started book on which, at every moment, equity plus the costs paid is the start NAV
      plus the price P&L: every accepted entry is made while equity is not negative or no cost is declared,
      and every close is of an open trade or pays nothing. */
  lemma {:induction false} BalancedAtEveryMoment(nav: real, declared: real, ops: seq<Op>)
    requires nav > 0.0 && declared >= 0.0
    ensures AllBalanced(Started(nav, declared), ops, |ops|) <==> AllPaid(Started(nav, declared), ops, |ops|)
  {
    hide AllBalanced, AllPaid, Started;
    BalancedExactly(Started(nav, declared), ops, |ops|);
  }

  // ------------------------------------------------------------------ at one moment

  /** The operation closes no trade a second time. */
  predicate ClosesOnce(b: Book, op: Op)
    requires b.Valid()
  {
    op.CloseOp? ==> var i := FindTrade(b.swing, op.id); i < |b.swing| ==> b.swing[i].status.Open?
  }

  lemma {:induction false} SettlesDropNothingNegative(b: Book, n: nat, m: Completed)
    requires b.Valid() && n <= |b.swing|
    ensures SettleTally(b, n, m).unlogged >= 0.0
  {
    hide SettlePnl, Swing.LegCost, SettleAt, SettledTo;
    if n > 0 {
      SettlesDropNothingNegative(b, n - 1, m);
    }
  }

  lemma LeakIsNonNegative(b: Book, op: Op)
    requires b.Valid() && ClosesOnce(b, op)
    ensures Leak(b, op) >= 0.0
  {
    hide EntryCost, Swing.LegCost, Swing.Gross;
    if op.SettleOp? {
      SettlesDropNothingNegative(b, |b.swing|, op.completed);
    }
  }

  lemma {:induction false} LeakOnlyGrows(b: Book, ops: seq<Op>, n: nat, k: nat)
    requires b.Valid() && k <= n <= |ops|
    requires forall l :: 0 <= l < n ==> ClosesOnce(After(b, ops[..l]), ops[l])
    ensures TotalLeak(b, ops[..k]) <= TotalLeak(b, ops[..n])
    decreases n
  {
    hide After, TotalLeak, Leak, ClosesOnce;
    if k < n {
      LeakOnlyGrows(b, ops, n - 1, k);
      OneMore(b, ops, n - 1);
      LeakIsNonNegative(After(b, ops[..n - 1]), ops[n - 1]);
    }
  }

  /** Without a second close, one balanced moment means every moment before it was. */
  lemma {:induction false} BalancedBefore(b: Book, ops: seq<Op>, n: nat)
    requires b.Valid() && RowsKnown(b.ledger, b.swing) && n <= |ops| && BalancedAfter(b, ops, n)
    requires forall l :: 0 <= l < n ==> ClosesOnce(After(b, ops[..l]), ops[l])
    ensures AllBalanced(b, ops, n)
  {
    BalancedIsNoLeak(b, ops, n);
    NoLeakYet(b, ops);
    hide BalancedAfter, After, TotalLeak, ClosesOnce, RowsKnown;
    forall k | 0 <= k <= n
      ensures BalancedAfter(b, ops, k)
    {
      LeakOnlyGrows(b, ops, n, k);
      LeakOnlyGrows(b, ops, k, 0);
      BalancedIsNoLeak(b, ops, k);
    }
  }

  lemma OtherwisePaid(b: Book, op: Op)
    requires b.Valid() && ClosesOnce(b, op) && !op.EnterOp?
    ensures Paid(b, op)
  {
  }

  /** After the whole run equity plus the costs paid is the start NAV plus the price P&L. */
  lemma BalancedAtTheEnd(nav: real, declared: real, ops: seq<Op>)
    requires nav > 0.0
    ensures var b := Started(nav, declared);
      After(b, ops).Equity() + CostsPaid(After(b, ops)) == nav + TotalPnl(b, ops) <==> BalancedAfter(b, ops, |ops|)
  {
    assert ops[..|ops|] == ops;
    hide After, TotalPnl, Started, CostsPaid;
  }

  /** Every accepted entry of the run is made while equity is not negative, or with no cost declared. */
  predicate EntersPaid(b: Book, ops: seq<Op>)
    requires b.Valid()
  {
    forall k :: 0 <= k < |ops| && ops[k].EnterOp? ==> PaidAt(b, ops, k)
  }

  /** A started book that closes no trade twice: its return is price P&L less the costs paid if and only if
      its entries are paid. */
  lemma {:induction false} ReturnIsMarketMinusCost(nav: real, declared: real, ops: seq<Op>)
    requires nav > 0.0 && declared >= 0.0
    requires forall k :: 0 <= k < |ops| ==> ClosesOnce(After(Started(nav, declared), ops[..k]), ops[k])
    ensures var b := Started(nav, declared);
      After(b, ops).Equity() + CostsPaid(After(b, ops)) == nav + TotalPnl(b, ops) <==> EntersPaid(b, ops)
  {
    BalancedAtTheEnd(nav, declared, ops);
    hide After, Started, TotalPnl, CostsPaid, Book.Equity, ClosesOnce, BalancedAfter, AllBalanced, Paid;
    var b, n := Started(nav, declared), |ops|;
    BalancedExactly(b, ops, n);
    if BalancedAfter(b, ops, n) {
      BalancedBefore(b, ops, n);
    }
    forall k | 0 <= k < n && !ops[k].EnterOp?
      ensures PaidAt(b, ops, k)
    {
      OtherwisePaid(After(b, ops[..k]), ops[k]);
    }
  }

  // ------------------------------------------------------------------ a trade from its entry to its close

  /** A trade's terms: what no later operation changes. */
  predicate SameTerms(t: Swing, u: Swing) {
    t.id == u.id && t.notional == u.notional && t.entryRef == u.entryRef && t.side == u.side
  }

  lemma {:induction false} TradesLeaveSwing(start: Book, targets: seq<Target>, prices: Prices, costBps: CostModel)
    requires start.Valid()
    ensures var b := TradedCore(start, targets, prices, costBps); b.swing == start.swing && b.declared == start.declared
  {
    hide TradedTo, Book.Equity;
  }

  lemma OperationKeepsTerms(b: Book, op: Op, i: nat)
    requires b.Valid() && i < |b.swing|
    ensures var b' := Apply(b, op); b'.declared == b.declared && i < |b'.swing| && SameTerms(b.swing[i], b'.swing[i])
  {
    hide TradedCore, Swing.Gross, Swing.Payout, SettledTo;
    match op {
      case MarkOp(_) =>
      case TradeOp(targets, prices, costBps) => TradesLeaveSwing(b, targets, prices, costBps);
      case EnterOp(_) =>
      case CloseOp(_, _) =>
      case SettleOp(m) => SettlesEachTrade(b, |b.swing|, m, i);
    }
  }

  /** No run of operations changes a trade's terms, or the declared leg. */
  lemma {:induction false} RunKeepsTerms(b: Book, ops: seq<Op>, i: nat)
    requires b.Valid() && i < |b.swing|
    ensures var b' := After(b, ops); b'.declared == b.declared && i < |b'.swing| && SameTerms(b.swing[i], b'.swing[i])
    decreases |ops|
  {
    if |ops| > 0 {
      hide Apply, Book.Valid;
      RunKeepsTerms(b, ops[..|ops| - 1], i);
      OperationKeepsTerms(After(b, ops[..|ops| - 1]), ops[|ops| - 1], i);
    }
  }

  lemma FoundAgain(swing: seq<Swing>, i: nat)
    requires i < |swing| && forall k, l :: 0 <= k < l < |swing| ==> swing[k].id != swing[l].id
    ensures FindTrade(swing, swing[i].id) == i
  {
  }

  /** Whatever happens between its entry and its close, the entry and exit cash of a trade add up to its
      notional times the net return the close records, long or short. */
  lemma {:induction false} NetCashOfATrade(b: Book, k: Ticket, ops: seq<Op>, x: Exit)
    requires b.Valid() && Accepted(b, k)
    ensures var entered, i := Entered(b, k), |b.swing|;
      var later := After(entered, ops);
      var closed := Apply(later, CloseOp(k.id, x));
      && i < |closed.swing| && closed.swing[i].id == k.id && closed.swing[i].netRet.Some?
      && (entered.cash - b.cash) + (closed.cash - later.cash) == entered.swing[i].notional * closed.swing[i].netRet.value
  {
    hide After, Apply, Entered, CloseAt, Accepted, Book.Valid;
    var entered, i := Entered(b, k), |b.swing|;
    EntryAtTheEnd(b, k);
    RunKeepsTerms(entered, ops, i);
    var later := After(entered, ops);
    CloseOfTrade(later, i, k.id, x);
    NetCash(b, k, later, i, x);
  }

  lemma EntryAtTheEnd(b: Book, k: Ticket)
    requires b.Valid() && Accepted(b, k)
    ensures Entered(b, k).declared == b.declared && |Entered(b, k).swing| == |b.swing| + 1
    ensures Entered(b, k).swing[|b.swing|].id == k.id
  {
  }

  lemma CloseOfTrade(b: Book, i: nat, id: TradeId, x: Exit)
    requires b.Valid() && i < |b.swing| && b.swing[i].id == id
    ensures Apply(b, CloseOp(id, x)) == CloseAt(b, i, x)
    ensures CloseAt(b, i, x).swing[i].id == id
  {
    FoundAgain(b.swing, i);
    hide FindTrade, Swing.Gross, Swing.Payout;
  }
}
