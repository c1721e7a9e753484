/** The sleeve with a catastrophe stop on every opened position. */
module CatastropheStops {
  import opened Wrappers
  import opened Vectors
  import opened SleeveBook

  /** The stop loop's variables: each column's stop distance (None where the source holds NaN), its
      price relative to the entry close, the last session of its cool-off, and the stop hits. */
  datatype StopBook = StopBook(book: Book, dist: seq<Option<real>>, ratio: Vec, coolUntil: seq<int>, hits: nat) {
    predicate Shaped(m: nat) {
      book.Shaped(m) && |dist| == m && |ratio| == m && |coolUntil| == m
    }

    /** A column with a stop distance has a price ratio of its weight's sign, so a stop that can be
        tested never divides by a zero ratio. */
    predicate Sound(m: nat) {
      Shaped(m) && forall j :: 0 <= j < m && dist[j].Some? ==> SameSign(book.held[j], ratio[j])
    }
  }

  predicate SameSign(a: real, b: real) {
    (a > 0.0 <==> b > 0.0) && (a == 0.0 <==> b == 0.0)
  }

  function Opening(m: nat): (s: StopBook)
    ensures s.Sound(m)
  {
    StopBook(EmptyBook(m), seq(m, _ => None), seq(m, _ => 1.0), seq(m, _ => -1), 0)
  }

  /** The stop's level relative to the previous close. */
  function StopRel(dist: real, ratio: real): real
    requires ratio != 0.0
  {
    (1.0 - dist) / ratio - 1.0
  }

  predicate Armed(s: StopBook, low: Option<real>, j: nat)
    requires j < |s.book.held| && j < |s.dist|
  {
    s.book.held[j] > 0.0 && s.dist[j].Some? && low.Some?
  }

  function StoppedMask(x: Inputs, s: StopBook, i: nat): (mask: seq<bool>)
    requires s.Sound(x.m)
    ensures |mask| == x.m
    ensures forall j :: 0 <= j < x.m && mask[j] ==> Armed(s, x.lowRel(i, j), j)
  {
    seq(x.m, j requires 0 <= j < x.m =>
      Armed(s, x.lowRel(i, j), j) && x.lowRel(i, j).value <= StopRel(s.dist[j].value, s.ratio[j]))
  }

  /** The day's returns: the fill's for a stopped column, the close-to-close return for the rest. */
  function DayReturns(x: Inputs, s: StopBook, i: nat): (r: Vec)
    requires s.Sound(x.m)
    ensures |r| == x.m
  {
    var stopped := StoppedMask(x, s, i);
    seq(x.m, j requires 0 <= j < x.m =>
      if stopped[j] then FillRel(x.openRel(i, j), StopRel(s.dist[j].value, s.ratio[j])) else OrZero(x.closeRel(i, j)))
  }

  function FillRel(open: Option<real>, stopRel: real): real {
    Min(if open.Some? then open.value else stopRel, stopRel)
  }

  function Scaled(ratio: Vec, r: Vec): (v: Vec)
    requires |ratio| == |r|
    ensures |v| == |r|
  {
    seq(|r|, j requires 0 <= j < |r| => ratio[j] * (1.0 + r[j]))
  }

  lemma ScaleKeepsSign(a: real, b: real, f: real, g: real)
    requires SameSign(a, b) && g > 0.0
    ensures SameSign(a * f / g, b * f)
  {
    assert a * f / g * g == a * f;
    if f > 0.0 {
      if a > 0.0 {
        assert a * f > 0.0 && b * f > 0.0;
      } else if a < 0.0 {
        assert a * f < 0.0 && b * f < 0.0;
      }
    } else if f < 0.0 {
      if a > 0.0 {
        assert a * f < 0.0 && b * f < 0.0;
      } else if a < 0.0 {
        assert a * f > 0.0 && b * f > 0.0;
      }
    }
  }

  lemma GrownKeepsSign(a: real, b: real, r: real, g: real)
    requires SameSign(a, b) && g > 0.0
    ensures SameSign(Grown(a, r, g), b * (1.0 + r))
  {
    var f := 1.0 + r;
    assert Grown(a, r, g) == a * f / g;
    hide SameSign, Grown;
    ScaleKeepsSign(a, b, f, g);
  }

  function StopDrift(s: StopBook, r: Vec, g: real): (s': StopBook)
    requires s.Sound(|r|) && g > 0.0
    ensures s'.Sound(|r|)
  {
    var s' := s.(book := Drift(s.book, r, g), ratio := Scaled(s.ratio, r));
    assert s'.Sound(|r|) by {
      forall j | 0 <= j < |r| && s.dist[j].Some?
        ensures SameSign(s'.book.held[j], s'.ratio[j])
      {
        hide Grown, SameSign;
        GrownKeepsSign(s.book.held[j], s.ratio[j], r[j], g);
        assert s'.book.held[j] == Grown(s.book.held[j], r[j], g);
        assert s'.ratio[j] == s.ratio[j] * (1.0 + r[j]);
      }
    }
    s'
  }

  function Negated(v: Vec): (w: Vec)
    ensures |w| == |v|
  {
    seq(|v|, j requires 0 <= j < |v| => -v[j])
  }

  function Except(pending: seq<bool>, stopped: seq<bool>): (mask: seq<bool>)
    requires |pending| == |stopped|
    ensures |mask| == |pending|
  {
    seq(|pending|, j requires 0 <= j < |pending| => pending[j] && !stopped[j])
  }

  /** The sale of the stopped columns; a stopped column's pending order is dropped. */
  function Sell(x: Inputs, b: Book, stopped: seq<bool>): (t: Trade)
    requires x.Valid() && b.Shaped(x.m) && |stopped| == x.m
    ensures t.book.Shaped(x.m) && |t.dw| == x.m
    ensures forall j :: 0 <= j < x.m && !stopped[j] ==> t.book.held[j] == b.held[j]
  {
    if !Any(stopped) then Trade(b, Zeros(x.m), 0.0) else
    var dw := Choose(stopped, Negated(b.held), Zeros(x.m));
    var cost := Charge(x, dw, stopped);
    Trade(b.(held := Choose(stopped, Zeros(x.m), b.held), heldLevel := Choose(stopped, Zeros(x.m), b.heldLevel),
             nav := b.nav * (1.0 - cost), pending := Except(b.pending, stopped)), dw, cost)
  }

  function Count(mask: seq<bool>): nat {
    if |mask| == 0 then 0 else Count(mask[..|mask| - 1]) + if mask[|mask| - 1] then 1 else 0
  }

  function Disarm(x: Inputs, s: StopBook, stopped: seq<bool>, i: nat, sold: Book): (s': StopBook)
    requires s.Sound(x.m) && |stopped| == x.m && sold.Shaped(x.m)
    requires forall j :: 0 <= j < x.m && !stopped[j] ==> sold.held[j] == s.book.held[j]
    ensures s'.Sound(x.m)
  {
    if !Any(stopped) then s.(book := sold) else
    StopBook(sold,
             seq(x.m, j requires 0 <= j < x.m => if stopped[j] then None else s.dist[j]),
             s.ratio,
             seq(x.m, j requires 0 <= j < x.m => if stopped[j] then i + x.rule.reentrySessions else s.coolUntil[j]),
             s.hits + Count(stopped))
  }

  predicate Opened(before: Vec, after: Vec, j: nat)
    requires j < |before| == |after|
  {
    before[j] <= 0.0 && after[j] > 0.0
  }

  /** A fill sets a stop where it opens a position, drops it where none is left, and leaves it on a
      top-up or a trim. */
  function Rearm(x: Inputs, s: StopBook, i: nat, filled: Book): (s': StopBook)
    requires s.Sound(x.m) && filled.Shaped(x.m)
    requires !Any(s.book.pending) ==> filled.held == s.book.held
    ensures s'.Sound(x.m)
  {
    if !Any(s.book.pending) then s.(book := filled) else
    var old' := s.book.held;
    StopBook(filled,
             seq(x.m, j requires 0 <= j < x.m =>
               if filled.held[j] <= 0.0 then None
               else if Opened(old', filled.held, j) then Some(x.rule.Distance(x.sigma(i, j))) else s.dist[j]),
             seq(x.m, j requires 0 <= j < x.m => if Opened(old', filled.held, j) then 1.0 else s.ratio[j]),
             s.coolUntil, s.hits)
  }

  /** The targets and levels ordered at a close: zero for a column in its cool-off. */
  function Cooled(coolUntil: seq<int>, i: nat, v: Vec): (w: Vec)
    requires |coolUntil| == |v|
    ensures |w| == |v|
  {
    seq(|v|, j requires 0 <= j < |v| => if coolUntil[j] >= i then 0.0 else v[j])
  }

  function AllOf(m: nat): (mask: seq<bool>)
    ensures |mask| == m
  {
    seq(m, _ => true)
  }

  function StopDecide(x: Inputs, s: StopBook, i: nat): (b: Book)
    requires s.Shaped(x.m)
    ensures b.Shaped(x.m) && b.held == s.book.held
  {
    Decide(x, s.book, i, AllOf(x.m), Cooled(s.coolUntil, i, Filled(x.targets, i, x.m)),
           Cooled(s.coolUntil, i, Filled(x.levels, i, x.m)))
  }

  /** Sale and fill of one session, on the drifted book. */
  function StopTrade(x: Inputs, s: StopBook, stopped: seq<bool>, i: nat): (r: (StopBook, Vec, real))
    requires x.Valid() && s.Sound(x.m) && |stopped| == x.m
    ensures r.0.Sound(x.m) && |r.1| == x.m
  {
    var sale := Sell(x, s.book, stopped);
    var sold := Disarm(x, s, stopped, i, sale.book);
    var fill := Fill(x, sold.book);
    (Rearm(x, sold, i, fill.book), Plus(sale.dw, fill.dw), sale.cost + fill.cost)
  }

  function StopDay(x: Inputs, s: StopBook, i: nat): (r: Run<StopBook>)
    requires x.Valid() && s.Sound(x.m)
    ensures r.Alive? ==> r.state.Sound(x.m) && |r.rows| == 1
    ensures r.Alive? ==> r.rows[0].weights == r.state.book.held && r.rows[0].nav == r.state.book.nav
  {
    var stopped := if i > 0 then StoppedMask(x, s, i) else Nowhere(x.m);
    var rets := DayReturns(x, s, i);
    var growth := if i > 0 then Growth(s.book.held, rets) else 1.0;
    if growth <= 0.0 then Ruined(i) else
    var moved := if i > 0 then StopDrift(s, rets, growth) else s;
    var (traded, dw, cost) := StopTrade(x, moved, stopped, i);
    var book := StopDecide(x, traded, i);
    Alive(traded.(book := book), [RowOf(book, dw, cost)])
  }

  function StopRun(x: Inputs, n: nat): (r: Run<StopBook>)
    requires x.Valid()
    ensures r.Alive? ==> r.state.Sound(x.m) && |r.rows| == n
    ensures r.Alive? && n > 0 ==> r.rows[n - 1].weights == r.state.book.held && r.rows[n - 1].nav == r.state.book.nav
  {
    if n == 0 then Alive(Opening(x.m), []) else
    var before := StopRun(x, n - 1);
    if before.Ruined? then before else
    var day := StopDay(x, before.state, n - 1);
    if day.Ruined? then day else Alive(day.state, before.rows + day.rows)
  }

  /** The session's stops and the day's returns: the armed columns whose low reaches their stop take the fill's. */
  method TestStops(x: Inputs, s: StopBook, i: nat) returns (stopped: seq<bool>, r: Vec)
    requires s.Sound(x.m)
    ensures stopped == StoppedMask(x, s, i) && r == DayReturns(x, s, i)
  {
    var stopRel := seq(x.m, j requires 0 <= j < x.m =>
      if Armed(s, x.lowRel(i, j), j) then (1.0 - s.dist[j].value) / s.ratio[j] - 1.0 else 0.0);
    stopped := seq(x.m, j requires 0 <= j < x.m => Armed(s, x.lowRel(i, j), j) && x.lowRel(i, j).value <= stopRel[j]);
    assert forall j :: 0 <= j < x.m && Armed(s, x.lowRel(i, j), j) ==> stopRel[j] == StopRel(s.dist[j].value, s.ratio[j]);
    assert stopped == StoppedMask(x, s, i);
    r := Filled(x.closeRel, i, x.m);
    NobodyStopped(stopped);
    hide Any, SameSign;
    if Any(stopped) {
      var gapOpen := seq(x.m, j requires 0 <= j < x.m =>
        if x.openRel(i, j).Some? then x.openRel(i, j).value else stopRel[j]);
      var fill := seq(x.m, j requires 0 <= j < x.m => Min(gapOpen[j], stopRel[j]));
      assert forall j :: 0 <= j < x.m && stopped[j] ==>
        fill[j] == FillRel(x.openRel(i, j), StopRel(s.dist[j].value, s.ratio[j]));
      r := Choose(stopped, fill, r);
    }
    assert r == DayReturns(x, s, i);
  }

  lemma NobodyStopped(mask: seq<bool>)
    ensures !Any(mask) ==> forall j :: 0 <= j < |mask| ==> !mask[j]
  {
  }

  /** The sale of the stopped columns, on the loop's own variables. */
  method SellStopped(x: Inputs, s: StopBook, stopped: seq<bool>, i: nat) returns (sold: StopBook, dwOut: Vec, costOut: real)
    requires x.Valid() && s.Sound(x.m) && |stopped| == x.m
    ensures sold == Disarm(x, s, stopped, i, Sell(x, s.book, stopped).book)
    ensures dwOut == Sell(x, s.book, stopped).dw && costOut == Sell(x, s.book, stopped).cost
  {
    hide Charge, Count, Any, SameSign;
    var held, heldLevel, nav, pending := s.book.held, s.book.heldLevel, s.book.nav, s.book.pending;
    var dist, coolUntil, hits := s.dist, s.coolUntil, s.hits;
    dwOut, costOut := Zeros(x.m), 0.0;
    if Any(stopped) {
      var dw := seq(x.m, j requires 0 <= j < x.m => if stopped[j] then -held[j] else 0.0);
      assert dw == Choose(stopped, Negated(held), Zeros(x.m));
      var cost := Charge(x, dw, stopped);
      held := Choose(stopped, Zeros(x.m), held);
      heldLevel := Choose(stopped, Zeros(x.m), heldLevel);
      nav := nav * (1.0 - cost);
      dwOut, costOut := Plus(dwOut, dw), costOut + cost;
      coolUntil := Choose(stopped, seq(x.m, _ => i + x.rule.reentrySessions), coolUntil);
      dist := Choose(stopped, seq(x.m, _ => None), dist);
      pending := Except(pending, stopped);
      hits := hits + Count(stopped);
      assert dwOut == dw;
    }
    sold := s.(book := s.book.(held := held, heldLevel := heldLevel, nav := nav, pending := pending),
               dist := dist, coolUntil := coolUntil, hits := hits);
  }

  /** The fill of the pending orders, on the loop's own variables: an opened column gets the rule's distance
      and a ratio of one, and a column left without weight loses its stop. */
  method FillPending(x: Inputs, s: StopBook, i: nat, dwSold: Vec, costSold: real)
    returns (filled: StopBook, dwOut: Vec, costOut: real)
    requires x.Valid() && s.Sound(x.m) && |dwSold| == x.m
    ensures filled == Rearm(x, s, i, Fill(x, s.book).book)
    ensures dwOut == Plus(dwSold, Fill(x, s.book).dw) && costOut == costSold + Fill(x, s.book).cost
  {
    hide Charge, Any, SameSign, StopRule.Distance;
    var held, heldLevel, nav, pending := s.book.held, s.book.heldLevel, s.book.nav, s.book.pending;
    var dist, ratio := s.dist, s.ratio;
    dwOut, costOut := dwSold, costSold;
    if Any(pending) {
      var after := Choose(pending, s.book.pendTarget, held);
      var dw := Minus(after, held);
      var cost := Charge(x, dw, NonZero(dw));
      var opens := seq(x.m, j requires 0 <= j < x.m => held[j] <= 0.0 && after[j] > 0.0);
      var closes := seq(x.m, j requires 0 <= j < x.m => after[j] <= 0.0);
      held := after;
      heldLevel := Choose(pending, s.book.pendLevel, heldLevel);
      nav := nav * (1.0 - cost);
      dwOut, costOut := Plus(dwOut, dw), costOut + cost;
      dist := Choose(opens, seq(x.m, j requires 0 <= j < x.m => Some(x.rule.Distance(x.sigma(i, j)))), dist);
      ratio := Choose(opens, seq(x.m, _ => 1.0), ratio);
      dist := Choose(closes, seq(x.m, _ => None), dist);
    } else {
      assert dwOut == Plus(dwSold, Zeros(x.m));
    }
    filled := s.(book := s.book.(held := held, heldLevel := heldLevel, nav := nav), dist := dist, ratio := ratio);
  }

  /** The body of the simulator's loop: the day's stops and return, the sale, the fill, and the next orders
      with the cooling columns at zero. */
  method SimulateSession(x: Inputs, opening: StopBook, i: nat) returns (r: Run<StopBook>)
    requires x.Valid() && opening.Sound(x.m)
    ensures r == StopDay(x, opening, i)
  {
    hide Any, Count, Opened, Choose, Charge, SameSign, Line, StoppedMask, DayReturns, Sell, Fill, Rearm, Disarm,
         Plus, RowOf, Drifted, Scaled, Filled, Cooled, Nowhere, Decisions, Dot;
    var s := opening;
    var stopped := Nowhere(x.m);
    if i > 0 {
      var rets;
      stopped, rets := TestStops(x, s, i);
      var growth := 1.0 + Dot(s.book.held, rets);
      if growth <= 0.0 {
        return Ruined(i);
      }
      ghost var moved := StopDrift(s, rets, growth);
      s := s.(book := s.book.(held := Drifted(s.book.held, rets, growth), nav := s.book.nav * growth),
              ratio := Scaled(s.ratio, rets));
      assert s == moved;
    }
    var sold, dwSold, costSold := SellStopped(x, s, stopped, i);
    var filled, dw, cost := FillPending(x, sold, i, dwSold, costSold);
    s := filled;
    var target := Cooled(s.coolUntil, i, Filled(x.targets, i, x.m));
    var level := Cooled(s.coolUntil, i, Filled(x.levels, i, x.m));
    var pending := Decisions(x, CloseView(s.book.held, s.book.heldLevel, target, level, Line(x.thresholds, i, x.m),
                                          AllOf(x.m), x.budget));
    s := s.(book := s.book.(pending := pending, pendTarget := target, pendLevel := level));
    r := Alive(s, [RowOf(s.book, dw, cost)]);
  }

  /** The loop over the sessions: it ends early on the one that wipes the book out. */
  method SimulateWithStops(x: Inputs, n: nat) returns (r: Run<StopBook>)
    requires x.Valid()
    ensures r == StopRun(x, n)
  {
    hide StopDay;
    var s := Opening(x.m);
    var rows: seq<Row> := [];
    for i := 0 to n
      invariant s.Sound(x.m)
      invariant StopRun(x, i) == Alive(s, rows)
    {
      var day := SimulateSession(x, s, i);
      if day.Ruined? {
        RuinIsFinal(x, i + 1, n);
        return day;
      }
      s := day.state;
      rows := rows + day.rows;
    }
    r := Alive(s, rows);
  }

  lemma {:induction false} RuinIsFinal(x: Inputs, k: nat, n: nat)
    requires x.Valid() && k <= n && StopRun(x, k).Ruined?
    ensures StopRun(x, n) == StopRun(x, k)
  {
    hide StopDay;
    if k < n {
      RuinIsFinal(x, k, n - 1);
    }
  }

  /** A run alive after `n` sessions was alive after every earlier number of them. */
  lemma {:induction false} AliveBefore(x: Inputs, k: nat, n: nat)
    requires x.Valid() && k <= n && StopRun(x, n).Alive?
    ensures StopRun(x, k).Alive?
    ensures StopRun(x, k).rows == StopRun(x, n).rows[..k]
  {
    hide StopDay;
    if k < n {
      AliveBefore(x, k, n - 1);
    }
  }
}
