/** Two short runs: a close at a total loss, and a stop filled at one. */
module StopExamples {
  import opened Wrappers
  import opened Vectors
  import opened SleeveBook
  import opened CatastropheStops
  import opened StopTheorems
  import opened StopArmor
  import opened StopCosts

  /** Half the book in one column, ordered whenever nothing is held, that closes at a total loss on session
      2; `low` is that session's open and low, where it has one. */
  function LossyInputs(low: Option<real>, fee: real): Inputs {
    Inputs(1, (i, j) => Some(0.5), (i, j) => None, (i, j) => None, (i, j) => if i == 2 then Some(-1.0) else None,
           (i, j) => if i == 2 then low else None, (i, j) => if i == 2 then low else None, (i, j) => None,
           [0.0], [fee], StopRule(0.1, 0.0, 0.0, 0.2, 1), None, (view: CloseView, j) => view.held == [0.0])
  }

  lemma PendingAfter(x: Inputs, s: StopBook, i: nat, j: nat)
    requires x.Valid() && s.Sound(x.m) && j < x.m && StopDay(x, s, i).Alive?
    ensures var b := StopDay(x, s, i).state.book;
      b.pending[j] == x.decide(CloseView(b.held, b.heldLevel, b.pendTarget, b.pendLevel, Line(x.thresholds, i, x.m),
                                         AllOf(x.m), x.budget), j)
  {
    hide StopTrade, Growth, DayReturns, StoppedMask, StopDrift, RowOf, Cooled;
  }

  lemma DotOfOne(a: Vec, b: Vec)
    requires |a| == |b| == 1
    ensures Dot(a, b) == a[0] * b[0]
  {
    var v := Times(a, b);
    assert v[..0] == [];
    assert Sum(v[..0]) == 0.0;
  }

  lemma NothingToLose(x: Inputs, s: StopBook, i: nat)
    requires x.m == 1 && s.Sound(1) && s.book.held[0] == 0.0
    ensures !StoppedOn(x, s, i)[0] && Growth(s.book.held, DayReturns(x, s, i)) == 1.0
    ensures Carried(x, s, i, 0) == 0.0
  {
    DotOfOne(s.book.held, DayReturns(x, s, i));
    hide DayReturns, Dot, SameSign;
  }

  /** The first two sessions: no stop, and nothing to lose. */
  lemma QuietSession(low: Option<real>, fee: real, s: StopBook, i: nat)
    requires s.Sound(1) && i < 2 && s.book.held[0] == 0.0
    ensures StopDay(LossyInputs(low, fee), s, i).Alive?
    ensures !StoppedOn(LossyInputs(low, fee), s, i)[0] && Carried(LossyInputs(low, fee), s, i, 0) == 0.0
  {
    hide StoppedMask, DayReturns, Growth, Carried, StoppedOn, StopTrade, StopDrift, StopDecide, RowOf, SameSign;
    NothingToLose(LossyInputs(low, fee), s, i);
  }

  lemma LossyReturn(low: Option<real>, fee: real, s: StopBook)
    requires s.Sound(1) && s.book.held[0] == 0.5 && s.dist[0] == Some(0.1) && s.ratio[0] == 1.0
    requires low.Some? ==> low.value == -1.0
    ensures StoppedMask(LossyInputs(low, fee), s, 2)[0] == low.Some?
    ensures DayReturns(LossyInputs(low, fee), s, 2) == [-1.0]
  {
    var x := LossyInputs(low, fee);
    assert x.lowRel(2, 0) == low && x.openRel(2, 0) == low && x.closeRel(2, 0) == Some(-1.0);
    assert StopRel(0.1, 1.0) == -0.1;
    hide SameSign, StopRel;
  }

  /** The third session loses the column, by its close or by its stop. */
  lemma LossySession(low: Option<real>, fee: real, s: StopBook)
    requires s.Sound(1) && s.book.held[0] == 0.5 && s.dist[0] == Some(0.1) && s.ratio[0] == 1.0
    requires low.Some? ==> low.value == -1.0
    ensures StopDay(LossyInputs(low, fee), s, 2).Alive?
    ensures StoppedOn(LossyInputs(low, fee), s, 2)[0] == low.Some? && DayReturns(LossyInputs(low, fee), s, 2)[0] == -1.0
    ensures Carried(LossyInputs(low, fee), s, 2, 0) == 0.0
  {
    hide StoppedMask, DayReturns, Dot, StopTrade, StopDrift, StopDecide, RowOf, SameSign;
    LossyReturn(low, fee, s);
    DotOfOne(s.book.held, [-1.0]);
  }

  /** The column is bought on session 1, with the stop of the rule's least distance. */
  lemma {:induction false} BoughtOnSessionOne(low: Option<real>, fee: real)
    ensures var x := LossyInputs(low, fee);
      && x.Valid() && StopRun(x, 1).Alive? && StopRun(x, 2).Alive?
      && !StoppedOn(x, StopRun(x, 0).state, 0)[0] && !StoppedOn(x, StopRun(x, 1).state, 1)[0]
    ensures var s := StopRun(LossyInputs(low, fee), 2).state;
      s.book.held[0] == 0.5 && s.dist[0] == Some(0.1) && s.ratio[0] == 1.0 && !s.book.pending[0]
  {
    hide StopDay, Carried, StoppedOn, Growth, DayReturns, Fills;
    var x := LossyInputs(low, fee);
    var s := Opening(1);
    assert StopRun(x, 0) == Alive(s, []);
    QuietSession(low, fee, s, 0);
    ColumnDay(x, s, 0, 0);
    PendingAfter(x, s, 0, 0);
    var s1 := StopDay(x, s, 0).state;
    assert StopRun(x, 1).Alive? && StopRun(x, 1).state == s1;
    assert s1.book.held == [0.0];
    QuietSession(low, fee, s1, 1);
    ColumnDay(x, s1, 1, 0);
    ColumnStop(x, s1, 1, 0);
    PendingAfter(x, s1, 1, 0);
    FillsAt(x, s1, 1, 0);
    var s2 := StopDay(x, s1, 1).state;
    assert StopRun(x, 2).Alive? && StopRun(x, 2).state == s2;
    assert x.rule.Distance(x.sigma(1, 0)) == 0.1;
    assert s2.book.held[0] == 0.5;
  }

  lemma NothingFills(x: Inputs, s: StopBook, i: nat)
    requires x.m == 1 && s.Sound(1) && !s.book.pending[0]
    ensures !Fills(x, s, i)
  {
  }

  /** A close at a total loss leaves a stop on an empty position until the next fill. */
  lemma {:induction false} TotalLossLeavesAStop()
    ensures var x := LossyInputs(None, 0.0);
      && x.Valid() && StopRun(x, 3).Alive?
      && StopRun(x, 3).state.book.held[0] == 0.0 && StopRun(x, 3).state.dist[0].Some?
  {
    hide StopDay, Carried, StoppedOn, Growth, DayReturns, Fills;
    var x := LossyInputs(None, 0.0);
    BoughtOnSessionOne(None, 0.0);
    var s := StopRun(x, 2).state;
    LossySession(None, 0.0, s);
    ColumnDay(x, s, 2, 0);
    ColumnStop(x, s, 2, 0);
    NothingFills(x, s, 2);
  }

  lemma FeeOfOne(mask: seq<bool>, fee: real)
    requires |mask| == 1
    ensures Sum(Where(mask, [fee])) == if mask[0] then fee else 0.0
  {
    var w := Where(mask, [fee]);
    assert Sum(w[..0]) == 0.0;
  }

  lemma FeesOfSession(x: Inputs, n: nat)
    requires x.Valid() && StopRun(x, n + 1).Alive? && StopRun(x, n).Alive? && x.m == 1
    ensures var w := WipedOut(x, StopRun(x, n).state, n);
      UntradedFees(x, n + 1) == UntradedFees(x, n) + if w[0] then x.fixed[0] else 0.0
  {
    hide StopDay, WipedOut, Where, Sum, StopRun;
    assert [x.fixed[0]] == x.fixed;
    FeeOfOne(WipedOut(x, StopRun(x, n).state, n), x.fixed[0]);
  }

  /** A stop filled at a total loss is charged its fixed fee on a trade of nothing, so the fees recounted
      from the trades miss it: whatever the fee, this run was charged exactly that much more. */
  lemma {:induction false} StopAtTotalLossPaysUntraded(fee: real)
    ensures var x := LossyInputs(Some(-1.0), fee);
      && x.Valid() && StopRun(x, 3).Alive? && UntradedFees(x, 3) == fee
      && |StopRun(x, 3).rows[2].trades| == 1 && StopRun(x, 3).rows[2].trades[0] == 0.0
  {
    hide StopDay, Carried, StoppedOn, Growth, DayReturns, Fills;
    var x := LossyInputs(Some(-1.0), fee);
    BoughtOnSessionOne(Some(-1.0), fee);
    var s := StopRun(x, 2).state;
    LossySession(Some(-1.0), fee, s);
    ColumnDay(x, s, 2, 0);
    ColumnTrade(x, s, 2, 0);
    hide UntradedFees, StopRun;
    FeesOfSession(x, 0);
    FeesOfSession(x, 1);
    FeesOfSession(x, 2);
    NoFeesYet(x);
  }

  lemma NoFeesYet(x: Inputs)
    requires x.Valid()
    ensures StopRun(x, 0).Alive? && UntradedFees(x, 0) == 0.0
  {
  }
}
