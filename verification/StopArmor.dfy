/** When every close keeps weight and stop together: a column held exactly where it carries a stop. */
module StopArmor {
  import opened Wrappers
  import opened Vectors
  import opened SleeveBook
  import opened CatastropheStops
  import opened StopTheorems

  /** At a close, the columns held are exactly the columns that carry a stop. */
  ghost predicate Armored(s: StopBook, m: nat)
    requires s.Sound(m)
  {
    forall j :: 0 <= j < m ==> (s.book.held[j] > 0.0 <==> s.dist[j].Some?)
  }

  /** The factor a session's return puts on a column leaves a held column held and a short one short. */
  predicate KeepsSide(held: real, factor: real) {
    (held > 0.0 ==> factor > 0.0) && (held < 0.0 ==> factor >= 0.0)
  }

  /** What a column must do for the session to keep its weight and its stop together. A stopped column and
      the first session always do. Where orders fill, the fill sets and drops the stops, so only a short
      column whose return turns it long escapes, unless its own order leaves no weight. Where nothing fills
      the stops stay as they are, so the return has to leave the column on its side. */
  predicate Keeps(x: Inputs, s: StopBook, i: nat, j: nat)
    requires s.Sound(x.m) && j < x.m
  {
    var held, factor := s.book.held[j], 1.0 + OrZero(x.closeRel(i, j));
    StoppedOn(x, s, i)[j] || i == 0 ||
    if Fills(x, s, i) then held < 0.0 && factor < 0.0 ==> s.book.pending[j] && s.book.pendTarget[j] <= 0.0
    else KeepsSide(held, factor)
  }

  lemma {:induction false} CarriedSide(x: Inputs, s: StopBook, i: nat, j: nat)
    requires s.Sound(x.m) && j < x.m && i > 0 && Growth(s.book.held, DayReturns(x, s, i)) > 0.0
    requires !StoppedOn(x, s, i)[j]
    ensures var h, f := s.book.held[j], 1.0 + OrZero(x.closeRel(i, j));
      Carried(x, s, i, j) > 0.0 <==> (h > 0.0 && f > 0.0) || (h < 0.0 && f < 0.0)
  {
    NotStoppedReturns(x, s, i, j);
    hide Growth, StoppedOn, DayReturns, OrZero;
    var h, f, g := s.book.held[j], 1.0 + DayReturns(x, s, i)[j], Growth(s.book.held, DayReturns(x, s, i));
    assert Carried(x, s, i, j) == h * f / g;
    QuotientSign(h, f, g);
  }

  lemma CarriedAtStart(x: Inputs, s: StopBook, j: nat)
    requires s.Sound(x.m) && j < x.m
    ensures Carried(x, s, 0, j) == s.book.held[j]
  {
  }

  lemma {:induction false} ColumnKeeps(x: Inputs, s: StopBook, i: nat, j: nat)
    requires x.Valid() && s.Sound(x.m) && StopDay(x, s, i).Alive? && j < x.m
    requires s.book.held[j] > 0.0 <==> s.dist[j].Some?
    ensures var s' := StopDay(x, s, i).state;
      (s'.book.held[j] > 0.0 <==> s'.dist[j].Some?) <==> Keeps(x, s, i, j)
  {
    hide StopDay, Growth, StoppedOn, Fills, Carried, StopRule.Distance;
    ColumnDay(x, s, i, j);
    ColumnStop(x, s, i, j);
    if i == 0 {
      CarriedAtStart(x, s, j);
    } else if !StoppedOn(x, s, i)[j] {
      CarriedSide(x, s, i, j);
    }
    if s.book.pending[j] && !StoppedOn(x, s, i)[j] {
      FillsAt(x, s, i, j);
    }
  }

  lemma FillsAt(x: Inputs, s: StopBook, i: nat, j: nat)
    requires s.Sound(x.m) && j < x.m && s.book.pending[j] && !StoppedOn(x, s, i)[j]
    ensures Fills(x, s, i)
  {
    hide StoppedOn;
    assert Except(s.book.pending, StoppedOn(x, s, i))[j];
  }

  /** Exactly when a session keeps weight and stop together. */
  lemma {:induction false} SessionKeepsArmorExactly(x: Inputs, s: StopBook, i: nat)
    requires x.Valid() && s.Sound(x.m) && StopDay(x, s, i).Alive? && Armored(s, x.m)
    ensures Armored(StopDay(x, s, i).state, x.m) <==> forall j :: 0 <= j < x.m ==> Keeps(x, s, i, j)
  {
    forall j | 0 <= j < x.m
      ensures var s' := StopDay(x, s, i).state;
        (s'.book.held[j] > 0.0 <==> s'.dist[j].Some?) <==> Keeps(x, s, i, j)
    {
      hide StopDay, Keeps;
      ColumnKeeps(x, s, i, j);
    }
    hide StopDay, Keeps;
  }

  // ------------------------------------------------------------------ over runs

  /** The close after `k` sessions of a run has weight exactly where it has a stop. */
  ghost predicate ArmoredAt(x: Inputs, k: nat)
    requires x.Valid()
  {
    StopRun(x, k).Alive? && Armored(StopRun(x, k).state, x.m)
  }

  /** Session `k` of a run keeps them together in every column. */
  predicate KeptAt(x: Inputs, k: nat)
    requires x.Valid()
  {
    StopRun(x, k).Alive? && forall j :: 0 <= j < x.m ==> Keeps(x, StopRun(x, k).state, k, j)
  }

  ghost predicate ArmoredThrough(x: Inputs, n: nat)
    requires x.Valid()
  {
    forall k :: 0 <= k <= n ==> ArmoredAt(x, k)
  }

  predicate KeptThrough(x: Inputs, n: nat)
    requires x.Valid()
  {
    forall k :: 0 <= k < n ==> KeptAt(x, k)
  }

  lemma ThroughOneMore(x: Inputs, n: nat)
    requires x.Valid() && (ArmoredAt(x, n) ==> (ArmoredAt(x, n + 1) <==> KeptAt(x, n)))
    requires ArmoredThrough(x, n) <==> KeptThrough(x, n)
    ensures ArmoredThrough(x, n + 1) <==> KeptThrough(x, n + 1)
  {
    hide ArmoredAt, KeptAt;
  }

  /** Exactly the runs that have weight where they have a stop at every close: each session keeps every
      column's weight and stop together. */
  lemma {:induction false} WeightExactlyWhereStop(x: Inputs, n: nat)
    requires x.Valid() && StopRun(x, n).Alive?
    ensures ArmoredThrough(x, n) <==> KeptThrough(x, n)
  {
    hide StopRun, ArmoredAt, KeptAt, ArmoredThrough, KeptThrough;
    if n == 0 {
      ArmoredAtStart(x);
    } else {
      AliveOneBefore(x, n - 1);
      WeightExactlyWhereStop(x, n - 1);
      if ArmoredAt(x, n - 1) {
        NextClose(x, n - 1);
      }
      ThroughOneMore(x, n - 1);
    }
  }

  lemma AliveOneBefore(x: Inputs, n: nat)
    requires x.Valid() && StopRun(x, n + 1).Alive?
    ensures StopRun(x, n).Alive?
  {
    hide StopDay;
  }

  lemma ArmoredAtStart(x: Inputs)
    requires x.Valid()
    ensures ArmoredThrough(x, 0) && KeptThrough(x, 0)
  {
  }

  lemma {:induction false} NextClose(x: Inputs, k: nat)
    requires x.Valid() && StopRun(x, k + 1).Alive? && ArmoredAt(x, k)
    ensures ArmoredAt(x, k + 1) <==> KeptAt(x, k)
  {
    hide StopDay, Armored, Keeps;
    SessionKeepsArmorExactly(x, StopRun(x, k).state, k);
  }

  /** No column of the run closes at a total loss. */
  ghost predicate NoTotalLoss(x: Inputs, n: nat) {
    forall k: nat, j: nat :: 0 < k < n && j < x.m ==> OrZero(x.closeRel(k, j)) > -1.0
  }

  /** Prices never close at nothing, so a run in them keeps weight and stop together at every close. */
  lemma {:induction false} WithoutTotalLossArmored(x: Inputs, n: nat, k: nat)
    requires x.Valid() && StopRun(x, n).Alive? && NoTotalLoss(x, n) && k <= n
    ensures ArmoredAt(x, k)
  {
    hide StopDay, Armored;
    forall l | 0 <= l < n
      ensures KeptAt(x, l)
    {
      AliveBefore(x, l, n);
    }
    WeightExactlyWhereStop(x, n);
  }
}
