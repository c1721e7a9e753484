/** Two short runs of the paper book whose accounts do not add up. */
module PaperExamples {
  import opened Wrappers
  import opened PaperLedger
  import opened PaperAccounts
  import opened PaperRuns

  const START := 100.0

  function TicketFor(id: TradeId, side: Side): Ticket {
    Ticket(id, "X", side, "X", 1.0, Some(1.0), 0.1, 0.2, 0)
  }

  /** Nothing exits, and the ticker closes at three times the short's entry. */
  function Tripled(): Completed {
    Completed(s => None, t => None, s => Some(3.0))
  }

  /** A short of the whole book, its ticker tripled, and one more entry. */
  function UnderWater(): seq<Op> {
    [EnterOp(TicketFor("a", Short)), SettleOp(Tripled()), EnterOp(TicketFor("b", Long))]
  }

  function ShortOf(notional: real, mark: real): Swing {
    Swing("a", "X", Short, "X", notional, 1.0, 0.1, 0.2, 0, Some(mark), Open, None, None, 0, None)
  }

  lemma OneTrade(t: Swing)
    requires t.entryRef > 0.0
    ensures Priced([t]) && SwingValue([t]) == Contribution(t)
  {
    assert [t][..0] == [];
    assert SwingValue([t][..0]) == 0.0;
  }

  lemma EnteredFirst(declared: real, side: Side)
    requires declared >= 0.0
    ensures var b := Started(START, declared); var k := TicketFor("a", side);
      && Accepted(b, k) && b.Equity() == START
      && Entered(b, k) == b.(cash := -declared,
                             swing := [Swing("a", "X", side, "X", START, 1.0, 0.1, 0.2, 0, Some(1.0), Open, None, None, 0, None)],
                             ledger := [SwingEntry("a", Some(declared))])
  {
    var b := Started(START, declared);
    assert b.Equity() == START;
    assert Notional(b, TicketFor("a", side)) == START && EntryCost(b, TicketFor("a", side)) == declared;
  }

  /** The tripled short leaves the book's equity below zero. */
  lemma TripledShort(declared: real, b: Book)
    requires declared >= 0.0 && b.Valid() && b.core == [] && b.cash == -declared && b.swing == [ShortOf(START, 1.0)]
    ensures var b' := Settled(b, Tripled());
      b'.Equity() < 0.0 && |b'.swing| == 1 && b'.swing[0].id == "a" && b'.declared == b.declared
  {
    var m, t := Tripled(), ShortOf(START, 3.0);
    assert MarkedTrade(ShortOf(START, 1.0), m) == t;
    assert SettledTo(b, 0, m) == b;
    assert SettledTo(b, 1, m) == SettleAt(b, 0, m);
    assert Settled(b, m) == b.(swing := [t]);
    OneTrade(t);
    assert Contribution(t) == -START;
  }

  /** An entry under water is dropped from the ledger's costs: whatever is declared, the accounts of this run
      no longer add up, although they did before the entry. */
  lemma {:induction false} EntryUnderWaterUnbalances(declared: real)
    requires declared > 0.0
    ensures var b := Started(START, declared);
      && AllBalanced(b, UnderWater(), 2) && !BalancedAfter(b, UnderWater(), 3)
  {
    var b, ops := Started(START, declared), UnderWater();
    var k := TicketFor("a", Short);
    EnteredFirst(declared, Short);
    TripledShort(declared, Entered(b, k));
    var b2 := Settled(Entered(b, k), Tripled());
    assert Accepted(b2, TicketFor("b", Long)) && b2.declared == declared;
    hide Started, Entered, Settled, Accepted, Book.Equity, AllBalanced, BalancedAfter;
    OnlyTheLastUnpaid(b, ops);
  }

  lemma AfterEach(b: Book, ops: seq<Op>)
    requires b.Valid() && |ops| == 3
    ensures After(b, ops[..0]) == b && After(b, ops[..1]) == Apply(b, ops[0])
    ensures After(b, ops[..2]) == Apply(Apply(b, ops[0]), ops[1])
  {
    assert After(b, ops[..0]) == b;
    hide Apply, After;
    OneMore(b, ops, 0);
    OneMore(b, ops, 1);
  }

  lemma AllPaidAt(b: Book, ops: seq<Op>)
    requires b.Valid() && |ops| == 3
    ensures AllPaid(b, ops, 2) <==> PaidAt(b, ops, 0) && PaidAt(b, ops, 1)
    ensures AllPaid(b, ops, 3) <==> AllPaid(b, ops, 2) && PaidAt(b, ops, 2)
  {
    hide PaidAt;
  }

  const FLAT := Exit(1.0, "manual", "2025-01-01", 0)

  /** A trade of the whole book closed twice at its entry price. */
  function ClosedTwice(): seq<Op> {
    [EnterOp(TicketFor("a", Long)), CloseOp("a", FLAT), CloseOp("a", FLAT)]
  }

  lemma OnlyTrade(swing: seq<Swing>, id: TradeId)
    requires |swing| == 1 && swing[0].id == id
    ensures FindTrade(swing, id) == 0
  {
    assert FindTrade(swing[..0], id) == 0;
  }

  /** After the first close the whole book could be paid out again. */
  lemma ClosedFlat(b: Book)
    requires b.Valid() && |b.swing| == 1 && b.swing[0].id == "a"
    requires b.swing[0].notional == START && b.swing[0].entryRef == 1.0
    ensures var b' := ClosedById(b, "a", FLAT);
      && |b'.swing| == 1 && b'.swing[0].id == "a" && b'.swing[0].status.Closed?
      && b'.swing[0].notional * (1.0 + b'.swing[0].Gross(FLAT.px)) == START
  {
    OnlyTrade(b.swing, "a");
    hide FindTrade, Swing.Payout;
  }

  /** The second close pays the whole book out again. */
  lemma {:induction false} SecondClosePaysAgain(declared: real)
    requires declared >= 0.0
    ensures var b := Started(START, declared);
      && AllBalanced(b, ClosedTwice(), 2) && !BalancedAfter(b, ClosedTwice(), 3)
  {
    var b, ops := Started(START, declared), ClosedTwice();
    var k := TicketFor("a", Long);
    EnteredFirst(declared, Long);
    var b1 := Entered(b, k);
    ClosedFlat(b1);
    OnlyTrade(b1.swing, "a");
    OnlyTrade(ClosedById(b1, "a", FLAT).swing, "a");
    hide Started, Entered, ClosedById, Accepted, Book.Equity, AllBalanced, BalancedAfter, FindTrade, Swing.Gross, After;
    assert Paid(b, ops[0]);
    assert Paid(b1, ops[1]);
    assert !Paid(ClosedById(b1, "a", FLAT), ops[2]);
    hide Paid;
    OnlyTheLastUnpaid(b, ops);
  }

  lemma OnlyTheLastUnpaid(b: Book, ops: seq<Op>)
    requires b.Valid() && RowsKnown(b.ledger, b.swing) && CostsNonNegative(b) && |ops| == 3
    requires Paid(b, ops[0]) && Paid(Apply(b, ops[0]), ops[1]) && !Paid(Apply(Apply(b, ops[0]), ops[1]), ops[2])
    ensures AllBalanced(b, ops, 2) && !BalancedAfter(b, ops, 3)
  {
    AfterEach(b, ops);
    hide After, Paid, Apply, AllBalanced, BalancedAfter, RowsKnown, CostsNonNegative;
    AllPaidAt(b, ops);
    hide PaidAt, AllPaid;
    BalancedExactly(b, ops, 2);
    BalancedExactly(b, ops, 3);
    AllOfOneMore(b, ops, 2);
  }
}
