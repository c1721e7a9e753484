/** Percentiles within a random null, and the correction for picking the best of several cells. */
module NullRank {
  import opened Wrappers
  import opened Vectors

  /** A statistic; None (no Sharpe) ranks below every number. */
  type Stat = Option<real>

  predicate Less(a: Stat, b: Stat) {
    b.Some? && (a.None? || a.value < b.value)
  }

  function Below(sample: seq<Stat>, v: Stat): nat {
    if |sample| == 0 then 0
    else Below(sample[..|sample| - 1], v) + if Less(sample[|sample| - 1], v) then 1 else 0
  }

  function Ties(sample: seq<Stat>, v: Stat): nat {
    if |sample| == 0 then 0
    else Ties(sample[..|sample| - 1], v) + if sample[|sample| - 1] == v then 1 else 0
  }

  /** The share of the null strictly below `v`, ties counting half. */
  function Percentile(v: Stat, sample: seq<Stat>): Stat {
    if |sample| == 0 then None
    else Some((Below(sample, v) as real + 0.5 * Ties(sample, v) as real) / |sample| as real)
  }

  /** The draws below a value, and those at it, told by their numbers alone: a missing one is below every number. */
  ghost function DrawsBelow(sample: seq<Stat>, v: Stat): set<nat> {
    set d | 0 <= d < |sample| && v.Some? && (sample[d].Some? ==> sample[d].value < v.value)
  }

  ghost function DrawsAt(sample: seq<Stat>, v: Stat): set<nat> {
    set d | 0 <= d < |sample| && sample[d] == v
  }

  lemma DrawsBelowOneMore(sample: seq<Stat>, v: Stat)
    requires |sample| > 0
    ensures var n := |sample| - 1;
      n !in DrawsBelow(sample[..n], v) &&
      DrawsBelow(sample, v) == DrawsBelow(sample[..n], v) + if Less(sample[n], v) then {n} else {}
  {
  }

  lemma DrawsAtOneMore(sample: seq<Stat>, v: Stat)
    requires |sample| > 0
    ensures var n := |sample| - 1;
      n !in DrawsAt(sample[..n], v) && DrawsAt(sample, v) == DrawsAt(sample[..n], v) + if sample[n] == v then {n} else {}
  {
  }

  lemma {:induction false} BelowIsSize(sample: seq<Stat>, v: Stat)
    ensures Below(sample, v) == |DrawsBelow(sample, v)|
  {
    if |sample| == 0 {
      assert DrawsBelow(sample, v) == {};
    } else {
      var n := |sample| - 1;
      BelowIsSize(sample[..n], v);
      DrawsBelowOneMore(sample, v);
      hide DrawsBelow;
    }
  }

  lemma {:induction false} TiesIsSize(sample: seq<Stat>, v: Stat)
    ensures Ties(sample, v) == |DrawsAt(sample, v)|
  {
    if |sample| == 0 {
      assert DrawsAt(sample, v) == {};
    } else {
      var n := |sample| - 1;
      TiesIsSize(sample[..n], v);
      DrawsAtOneMore(sample, v);
      hide DrawsAt;
    }
  }

  /** The percentile of a value is the share of the draws below it with half of those at it: twice the draws times
      the percentile is twice the ones below and once the ones at. */
  lemma {:induction false} PercentileCountsDraws(v: Stat, sample: seq<Stat>)
    ensures Percentile(v, sample).Some? <==> |sample| > 0
    ensures |sample| > 0 ==>
      2.0 * |sample| as real * Percentile(v, sample).value ==
        2.0 * |DrawsBelow(sample, v)| as real + |DrawsAt(sample, v)| as real
  {
    BelowIsSize(sample, v);
    TiesIsSize(sample, v);
    hide Below, Ties, DrawsBelow, DrawsAt;
    if |sample| > 0 {
      var a, n := Below(sample, v) as real + 0.5 * Ties(sample, v) as real, |sample| as real;
      assert a / n * n == a;
    }
  }

  // ------------------------------------------------------------------ average ranks

  predicate Sorted(s: seq<Stat>) {
    forall k, l :: 0 <= k < l < |s| ==> !Less(s[l], s[k])
  }

  function Insert(s: seq<Stat>, x: Stat): seq<Stat> {
    if |s| == 0 then [x]
    else if Less(x, s[|s| - 1]) then Insert(s[..|s| - 1], x) + [s[|s| - 1]]
    else s + [x]
  }

  function Sort(s: seq<Stat>): seq<Stat> {
    if |s| == 0 then [] else Insert(Sort(s[..|s| - 1]), s[|s| - 1])
  }

  /** The sum of the ordinal ranks (from 1) at which `x` stands in a sorted sample. */
  function RankSum(s: seq<Stat>, x: Stat): nat {
    if |s| == 0 then 0 else RankSum(s[..|s| - 1], x) + if s[|s| - 1] == x then |s| else 0
  }

  /** The average of the ordinal ranks of `x` in the sorted sample. */
  function AverageRank(s: seq<Stat>, x: Stat): real
    requires Ties(s, x) > 0
  {
    RankSum(Sort(s), x) as real / Ties(s, x) as real
  }

  lemma CountAppend(s: seq<Stat>, y: Stat, x: Stat)
    ensures Below(s + [y], x) == Below(s, x) + if Less(y, x) then 1 else 0
    ensures Ties(s + [y], x) == Ties(s, x) + if y == x then 1 else 0
  {
    assert (s + [y])[..|s|] == s;
  }

  lemma {:induction false} InsertCounts(s: seq<Stat>, y: Stat, x: Stat)
    ensures |Insert(s, y)| == |s| + 1
    ensures Below(Insert(s, y), x) == Below(s, x) + if Less(y, x) then 1 else 0
    ensures Ties(Insert(s, y), x) == Ties(s, x) + if y == x then 1 else 0
  {
    if |s| > 0 && Less(y, s[|s| - 1]) {
      InsertCounts(s[..|s| - 1], y, x);
      CountAppend(Insert(s[..|s| - 1], y), s[|s| - 1], x);
    } else {
      CountAppend(s, y, x);
      assert s + [y] == Insert(s, y);
    }
  }

  lemma {:induction false} InsertSorts(s: seq<Stat>, y: Stat)
    requires Sorted(s)
    ensures |Insert(s, y)| == |s| + 1 && Sorted(Insert(s, y))
    ensures forall k :: 0 <= k <= |s| ==> Insert(s, y)[k] == y || Insert(s, y)[k] in s
  {
    if |s| > 0 && Less(y, s[|s| - 1]) {
      InsertSorts(s[..|s| - 1], y);
    }
  }

  lemma {:induction false} SortSorts(s: seq<Stat>, x: Stat)
    ensures |Sort(s)| == |s| && Sorted(Sort(s))
    ensures Below(Sort(s), x) == Below(s, x) && Ties(Sort(s), x) == Ties(s, x)
  {
    if |s| > 0 {
      SortSorts(s[..|s| - 1], x);
      InsertSorts(Sort(s[..|s| - 1]), s[|s| - 1]);
      InsertCounts(Sort(s[..|s| - 1]), s[|s| - 1], x);
    }
  }

  lemma {:induction false} CountsBound(s: seq<Stat>, x: Stat)
    ensures Below(s, x) + Ties(s, x) <= |s|
    ensures (forall k :: 0 <= k < |s| ==> !Less(x, s[k])) ==> Below(s, x) + Ties(s, x) == |s|
    ensures (forall k :: 0 <= k < |s| ==> s[k] != x) ==> Ties(s, x) == 0
  {
    if |s| > 0 {
      CountsBound(s[..|s| - 1], x);
    }
  }

  /** Twice the sum of `e` consecutive ranks after the first `b`. */
  function TwiceRanks(b: nat, e: nat): nat {
    e * (2 * b + e + 1)
  }

  lemma NextTie(b: nat, e: nat)
    ensures TwiceRanks(b, e + 1) == TwiceRanks(b, e) + 2 * (b + e + 1)
  {
  }

  lemma NoTie(b: nat)
    ensures TwiceRanks(b, 0) == 0
  {
  }

  /** In a sorted sample the ties of `x` stand right after what is below it. */
  lemma {:induction false} RankSumOfSorted(s: seq<Stat>, x: Stat)
    requires Sorted(s)
    ensures 2 * RankSum(s, x) == TwiceRanks(Below(s, x), Ties(s, x))
  {
    hide TwiceRanks;
    if |s| > 0 {
      var t, y := s[..|s| - 1], s[|s| - 1];
      RankSumOfSorted(t, x);
      CountsBound(t, x);
      if y == x {
        assert Below(t, x) + Ties(t, x) == |t|;
        NextTie(Below(t, x), Ties(t, x));
      } else if Less(y, x) {
        assert Ties(t, x) == 0;
        NoTie(Below(t, x));
        NoTie(Below(s, x));
      }
    } else {
      NoTie(0);
    }
  }

  /** pandas' average rank less one half, over the sample size, is the percentile of the draw in its
      own null. */
  lemma AverageRankIsPercentile(sample: seq<Stat>, x: Stat)
    requires Ties(sample, x) > 0
    ensures |sample| > 0 && Percentile(x, sample) == Some((AverageRank(sample, x) - 0.5) / |sample| as real)
  {
    SortSorts(sample, x);
    RankSumOfSorted(Sort(sample), x);
    CountsBound(sample, x);
    hide TwiceRanks, RankSum, Sort, Below, Ties, Sorted;
    MeanOf(RankSum(Sort(sample), x), Ties(sample, x), Below(sample, x));
  }

  lemma MeanOf(r: nat, e: nat, b: nat)
    requires e > 0 && 2 * r == TwiceRanks(b, e)
    ensures r as real / e as real - 0.5 == b as real + 0.5 * e as real
  {
    var q := b as real + 0.5 * e as real + 0.5;
    RealProduct(e, 2 * b + e + 1);
    assert 2.0 * q == (2 * b + e + 1) as real;
    assert q * e as real == r as real;
    QuotientIs(r as real, e as real, q);
  }

  lemma RealProduct(a: nat, b: nat)
    ensures (a * b) as real == a as real * b as real
  {
  }

  lemma {:induction false} AppearsTies(sample: seq<Stat>, d: nat)
    requires d < |sample|
    ensures Ties(sample, sample[d]) > 0
  {
    if d < |sample| - 1 {
      AppearsTies(sample[..|sample| - 1], d);
    }
  }

  // ------------------------------------------------------------------ the null of the best cell

  /** One draw of a cell, or none: a cell may lack a draw that others have. */
  datatype Draw = Missing | Drawn(stat: Stat)

  /** A cell of the null: its statistic draw by draw. */
  type Cell = seq<Draw>

  /** The cell's own null: the draws it has. */
  function Sample(cell: Cell): (s: seq<Stat>)
    ensures |s| <= |cell|
  {
    if |cell| == 0 then [] else
    Sample(cell[..|cell| - 1]) + if cell[|cell| - 1].Drawn? then [cell[|cell| - 1].stat] else []
  }

  /** The percentile of a draw within its cell's own null, from its average rank. */
  function OwnRank(sample: seq<Stat>, x: Stat): Stat {
    if Ties(sample, x) == 0 then None else Some((AverageRank(sample, x) - 0.5) / |sample| as real)
  }

  function OwnPercentiles(sample: seq<Stat>): (p: seq<Stat>)
    ensures |p| == |sample|
  {
    seq(|sample|, d requires 0 <= d < |sample| => OwnRank(sample, sample[d]))
  }

  /** Every cell has the draw. */
  predicate Shared(cells: seq<Cell>, d: nat) {
    forall c :: 0 <= c < |cells| ==> d < |cells[c]| && cells[c][d].Drawn?
  }

  function OwnAt(cell: Cell, d: nat): Stat
    requires d < |cell| && cell[d].Drawn?
  {
    OwnRank(Sample(cell), cell[d].stat)
  }

  /** The highest of the cells' percentiles of one draw. */
  function MaxOver(cells: seq<Cell>, d: nat): Stat
    requires |cells| > 0 && Shared(cells, d)
  {
    var last := OwnAt(cells[|cells| - 1], d);
    if |cells| == 1 then last else
    var rest := MaxOver(cells[..|cells| - 1], d);
    if Less(rest, last) then last else rest
  }

  /** The null of the best cell: one maximum for every draw that all cells have. */
  function MaxPercentileNull(cells: seq<Cell>, draws: nat): (w: seq<Stat>)
    ensures |cells| == 0 ==> w == []
  {
    if |cells| == 0 || draws == 0 then [] else
    MaxPercentileNull(cells, draws - 1) + if Shared(cells, draws - 1) then [MaxOver(cells, draws - 1)] else []
  }

  lemma {:induction false} MaxDominates(cells: seq<Cell>, d: nat, c: nat)
    requires c < |cells| && Shared(cells, d)
    ensures !Less(MaxOver(cells, d), OwnAt(cells[c], d))
  {
    if c < |cells| - 1 {
      MaxDominates(cells[..|cells| - 1], d, c);
    }
  }

  lemma {:induction false} MaxIsReached(cells: seq<Cell>, d: nat) returns (c: nat)
    requires |cells| > 0 && Shared(cells, d)
    ensures c < |cells| && MaxOver(cells, d) == OwnAt(cells[c], d)
  {
    c := |cells| - 1;
    if |cells| > 1 && MaxOver(cells, d) != OwnAt(cells[c], d) {
      c := MaxIsReached(cells[..|cells| - 1], d);
    }
  }

  // ------------------------------------------------------------------ order and domination

  lemma {:induction false} CountsRise(sample: seq<Stat>, a: Stat, b: Stat)
    requires Less(a, b)
    ensures Below(sample, a) + Ties(sample, a) <= Below(sample, b)
  {
    if |sample| > 0 {
      CountsRise(sample[..|sample| - 1], a, b);
    }
  }

  lemma {:induction false} PercentileFromCounts(v: Stat, low: seq<Stat>, w: Stat, high: seq<Stat>)
    requires |low| == |high| > 0
    ensures !Less(Percentile(v, low), Percentile(w, high)) <==>
            2 * Below(high, w) + Ties(high, w) <= 2 * Below(low, v) + Ties(low, v)
  {
    var a := Below(low, v) as real + 0.5 * Ties(low, v) as real;
    var b := Below(high, w) as real + 0.5 * Ties(high, w) as real;
    QuotientOrder(b, a, |low| as real);
  }

  /** Percentiles of draws order exactly as the draws do against any value. */
  lemma PercentileKeepsOrder(sample: seq<Stat>, d: nat, v: Stat)
    requires d < |sample|
    ensures Less(sample[d], v) <==> Less(Percentile(sample[d], sample), Percentile(v, sample))
    ensures sample[d] == v <==> Percentile(sample[d], sample) == Percentile(v, sample)
  {
    AppearsTies(sample, d);
    PercentileFromCounts(v, sample, sample[d], sample);
    PercentileFromCounts(sample[d], sample, v, sample);
    if Less(sample[d], v) {
      CountsRise(sample, sample[d], v);
    } else if Less(v, sample[d]) {
      CountsRise(sample, v, sample[d]);
    }
  }

  lemma {:induction false} SameCounts(a: seq<Stat>, x: Stat, b: seq<Stat>, y: Stat)
    requires |a| == |b|
    requires forall d :: 0 <= d < |a| ==> (Less(a[d], x) <==> Less(b[d], y)) && (a[d] == x <==> b[d] == y)
    ensures Below(a, x) == Below(b, y) && Ties(a, x) == Ties(b, y)
  {
    if |a| > 0 {
      SameCounts(a[..|a| - 1], x, b[..|b| - 1], y);
    }
  }

  /** The percentile of a percentile in the percentiles of the same null is itself. */
  lemma OwnNullIsCalibrated(v: Stat, sample: seq<Stat>)
    ensures Percentile(Percentile(v, sample), OwnPercentiles(sample)) == Percentile(v, sample)
  {
    var own := OwnPercentiles(sample);
    var p := Percentile(v, sample);
    forall d | 0 <= d < |sample|
      ensures (Less(sample[d], v) <==> Less(own[d], p)) && (sample[d] == v <==> own[d] == p)
    {
      AppearsTies(sample, d);
      AverageRankIsPercentile(sample, sample[d]);
      PercentileKeepsOrder(sample, d, v);
      hide AverageRank, Percentile;
    }
    SameCounts(sample, v, own, p);
  }

  // ------------------------------------------------------------------ the correction

  /** A cell's own percentiles on the draws that all cells have. */
  function SharedOwn(cells: seq<Cell>, c: nat, draws: nat): (p: seq<Stat>)
    requires c < |cells|
  {
    if draws == 0 then [] else
    SharedOwn(cells, c, draws - 1) + if Shared(cells, draws - 1) then [OwnAt(cells[c], draws - 1)] else []
  }

  /** One more draw, no lower above than below, keeps the order of the counts. */
  lemma HigherDraw(low: seq<Stat>, high: seq<Stat>, a: Stat, b: Stat, v: Stat)
    requires 2 * Below(high, v) + Ties(high, v) <= 2 * Below(low, v) + Ties(low, v) && !Less(b, a)
    ensures 2 * Below(high + [b], v) + Ties(high + [b], v) <= 2 * Below(low + [a], v) + Ties(low + [a], v)
  {
    CountAppend(low, a, v);
    CountAppend(high, b, v);
  }

  /** Draw by draw the maximum lies above the cell, so it leaves every value a lower percentile. */
  lemma {:induction false} MaxNullDominates(cells: seq<Cell>, c: nat, draws: nat, v: Stat)
    requires c < |cells|
    ensures var low, high := SharedOwn(cells, c, draws), MaxPercentileNull(cells, draws);
      |low| == |high| && 2 * Below(high, v) + Ties(high, v) <= 2 * Below(low, v) + Ties(low, v)
  {
    if draws > 0 {
      MaxNullDominates(cells, c, draws - 1, v);
      if Shared(cells, draws - 1) {
        MaxDominates(cells, draws - 1, c);
        hide OwnAt, MaxOver;
        HigherDraw(SharedOwn(cells, c, draws - 1), MaxPercentileNull(cells, draws - 1), OwnAt(cells[c], draws - 1),
                   MaxOver(cells, draws - 1), v);
      } else {
        assert SharedOwn(cells, c, draws) == SharedOwn(cells, c, draws - 1);
        assert MaxPercentileNull(cells, draws) == MaxPercentileNull(cells, draws - 1);
      }
    }
  }

  /** Against the cell's own percentiles on the shared draws, the maximum never raises a percentile. */
  lemma {:induction false} AdjustmentIsBelowShared(cells: seq<Cell>, c: nat, draws: nat, v: Stat)
    requires c < |cells|
    ensures !Less(Percentile(v, SharedOwn(cells, c, draws)), Percentile(v, MaxPercentileNull(cells, draws)))
  {
    var low, high := SharedOwn(cells, c, draws), MaxPercentileNull(cells, draws);
    MaxNullDominates(cells, c, draws, v);
    if |low| > 0 {
      PercentileFromCounts(v, low, v, high);
    }
  }

  /** Every draw of the cell is a draw of all cells. */
  predicate AllShared(cells: seq<Cell>, c: nat, draws: nat)
    requires c < |cells|
  {
    |cells[c]| == draws && forall d :: 0 <= d < draws && cells[c][d].Drawn? ==> Shared(cells, d)
  }

  lemma {:induction false} OwnOfPrefix(cells: seq<Cell>, c: nat, n: nat)
    requires c < |cells| && n <= |cells[c]|
    requires forall d :: 0 <= d < n && cells[c][d].Drawn? ==> Shared(cells, d)
    ensures var part := Sample(cells[c][..n]);
      SharedOwn(cells, c, n) == seq(|part|, d requires 0 <= d < |part| => OwnRank(Sample(cells[c]), part[d]))
  {
    if n > 0 {
      hide OwnRank;
      OwnOfPrefix(cells, c, n - 1);
      assert cells[c][..n][..n - 1] == cells[c][..n - 1];
      assert cells[c][n - 1].Drawn? <==> Shared(cells, n - 1);
    }
  }

  lemma OwnOfAll(cells: seq<Cell>, c: nat, draws: nat)
    requires c < |cells| && AllShared(cells, c, draws)
    ensures SharedOwn(cells, c, draws) == OwnPercentiles(Sample(cells[c]))
  {
    OwnOfPrefix(cells, c, draws);
    assert cells[c][..draws] == cells[c];
  }

  ghost predicate NeverRaised(cells: seq<Cell>, c: nat, draws: nat, v: Stat)
    requires c < |cells|
  {
    var own := Percentile(v, Sample(cells[c]));
    !Less(own, Percentile(own, MaxPercentileNull(cells, draws)))
  }

  /** The correction for choosing among cells never raises the percentile of a cell whose draws all cells
      have, as they do in a study, or when no draw is shared at all. */
  lemma {:induction false} AdjustmentNeverRaises(cells: seq<Cell>, c: nat, draws: nat, v: Stat)
    requires c < |cells| && (AllShared(cells, c, draws) || MaxPercentileNull(cells, draws) == [])
    ensures NeverRaised(cells, c, draws, v)
  {
    if MaxPercentileNull(cells, draws) != [] {
      var own := Percentile(v, Sample(cells[c]));
      OwnNullIsCalibrated(v, Sample(cells[c]));
      OwnOfAll(cells, c, draws);
      AdjustmentIsBelowShared(cells, c, draws, own);
    }
  }

  // ------------------------------------------------------------------ cells that lack draws

  /** Which draws each cell has. */
  type Table = seq<seq<bool>>

  predicate Rectangular(have: Table, draws: nat) {
    forall k :: 0 <= k < |have| ==> |have[k]| == draws
  }

  predicate InAll(have: Table, d: nat) {
    forall k :: 0 <= k < |have| ==> d < |have[k]| && have[k][d]
  }

  predicate HasDraws(cells: seq<Cell>, have: Table, draws: nat) {
    |cells| == |have| && forall k :: 0 <= k < |cells| ==>
      |cells[k]| == |have[k]| == draws && forall d :: 0 <= d < draws ==> cells[k][d].Drawn? == have[k][d]
  }

  lemma SharedIsInAll(cells: seq<Cell>, have: Table, draws: nat, d: nat)
    requires HasDraws(cells, have, draws) && d < draws
    ensures Shared(cells, d) <==> InAll(have, d)
  {
  }

  /** Statistics that set the cells' extra draws above the shared ones. */
  function Adverse(have: Table, draws: nat): (cells: seq<Cell>)
    requires Rectangular(have, draws)
    ensures HasDraws(cells, have, draws)
  {
    seq(|have|, k requires 0 <= k < |have| =>
      seq(draws, d requires 0 <= d < draws =>
        if !have[k][d] then Missing else Drawn(Some(if InAll(have, d) then 0.0 else 1.0))))
  }

  function SharedCount(have: Table, n: nat): nat {
    if n == 0 then 0 else SharedCount(have, n - 1) + if InAll(have, n - 1) then 1 else 0
  }

  /** The draws of a cell that some other cell lacks. */
  function ExtraCount(have: Table, k: nat, n: nat): nat
    requires k < |have| && n <= |have[k]|
  {
    if n == 0 then 0 else ExtraCount(have, k, n - 1) + if have[k][n - 1] && !InAll(have, n - 1) then 1 else 0
  }

  lemma SampleOneMore(cell: Cell, n: nat)
    requires n < |cell|
    ensures Sample(cell[..n + 1]) == Sample(cell[..n]) + if cell[n].Drawn? then [cell[n].stat] else []
  {
    assert cell[..n + 1][..n] == cell[..n];
  }

  /** What the adverse statistics make of a cell's first draws. */
  ghost predicate AdverseCounted(have: Table, k: nat, n: nat, s: seq<Stat>)
    requires k < |have| && n <= |have[k]|
  {
    && |s| == SharedCount(have, n) + ExtraCount(have, k, n)
    && Below(s, Some(0.0)) == 0 && Ties(s, Some(0.0)) == SharedCount(have, n)
    && Below(s, Some(1.0)) == SharedCount(have, n) && Ties(s, Some(1.0)) == ExtraCount(have, k, n)
  }

  lemma CountedOneMore(have: Table, k: nat, n: nat, s: seq<Stat>, x: real)
    requires k < |have| && n < |have[k]| && have[k][n] && AdverseCounted(have, k, n, s)
    requires x == if InAll(have, n) then 0.0 else 1.0
    ensures AdverseCounted(have, k, n + 1, s + [Some(x)])
  {
    hide InAll, Below, Ties;
    CountAppend(s, Some(x), Some(0.0));
    CountAppend(s, Some(x), Some(1.0));
  }

  lemma AdverseAt(have: Table, draws: nat, k: nat, n: nat)
    requires Rectangular(have, draws) && k < |have| && n < draws
    ensures Adverse(have, draws)[k][n] ==
            if !have[k][n] then Missing else Drawn(Some(if InAll(have, n) then 0.0 else 1.0))
    ensures InAll(have, n) ==> have[k][n]
  {
  }

  lemma {:induction false} AdverseCounts(have: Table, draws: nat, k: nat, n: nat)
    requires Rectangular(have, draws) && k < |have| && n <= draws
    ensures |have[k]| == draws && AdverseCounted(have, k, n, Sample(Adverse(have, draws)[k][..n]))
  {
    assert |have[k]| == draws;
    if n == 0 {
      assert Adverse(have, draws)[k][..0] == [];
    } else {
      hide Adverse, Sample, AdverseCounted, InAll, Rectangular;
      AdverseCounts(have, draws, k, n - 1);
      AdverseOneMore(have, draws, k, n - 1);
    }
  }

  lemma AdverseOneMore(have: Table, draws: nat, k: nat, n: nat)
    requires Rectangular(have, draws) && k < |have| && n < |have[k]| == draws
    requires AdverseCounted(have, k, n, Sample(Adverse(have, draws)[k][..n]))
    ensures AdverseCounted(have, k, n + 1, Sample(Adverse(have, draws)[k][..n + 1]))
  {
    hide Adverse, Sample, InAll, Below, Ties, Rectangular;
    var cell := Adverse(have, draws)[k];
    SampleOneMore(cell, n);
    AdverseAt(have, draws, k, n);
    var before := Sample(cell[..n]);
    if have[k][n] {
      hide AdverseCounted;
      CountedOneMore(have, k, n, before, if InAll(have, n) then 0.0 else 1.0);
    } else {
      assert before + [] == before;
    }
  }

  lemma {:induction false} CountedUpTo(have: Table, c: nat, n: nat, d: nat)
    requires c < |have| && d < n <= |have[c]|
    ensures InAll(have, d) ==> SharedCount(have, n) > 0
    ensures have[c][d] && !InAll(have, d) ==> ExtraCount(have, c, n) > 0
  {
    if d < n - 1 {
      CountedUpTo(have, c, n - 1, d);
    }
  }

  /** A shared draw stands in the lower half of every cell. */
  lemma SharedIsLow(have: Table, draws: nat, k: nat, d: nat)
    requires Rectangular(have, draws) && k < |have| && d < draws && InAll(have, d)
    ensures var own := OwnAt(Adverse(have, draws)[k], d); own.Some? && own.value <= 0.5
  {
    var cell := Adverse(have, draws)[k];
    AdverseAt(have, draws, k, d);
    assert cell[..draws] == cell && cell[d] == Drawn(Some(0.0));
    hide AverageRank, Sample, Below, Ties, Adverse, InAll;
    AdverseCounts(have, draws, k, draws);
    CountedUpTo(have, k, draws, d);
    AverageRankIsPercentile(Sample(cell), Some(0.0));
    HalfAtMost(SharedCount(have, draws), ExtraCount(have, k, draws));
  }

  lemma HalfAtMost(s: nat, e: nat)
    requires s > 0
    ensures (0.5 * s as real) / (s + e) as real <= 0.5
  {
    QuotientIs(0.5 * (s + e) as real, (s + e) as real, 0.5);
    QuotientOrder(0.5 * s as real, 0.5 * (s + e) as real, (s + e) as real);
  }

  lemma AboveHalf(s: nat, e: nat)
    requires s > 0 && e > 0
    ensures 0.5 < (s as real + 0.5 * e as real) / (s + e) as real < 1.0
  {
    var n := (s + e) as real;
    QuotientIs(0.5 * n, n, 0.5);
    QuotientIs(n, n, 1.0);
    QuotientOrder(s as real + 0.5 * e as real, 0.5 * n, n);
    QuotientOrder(n, s as real + 0.5 * e as real, n);
  }

  predicate LowOnly(w: seq<Stat>) {
    forall d :: 0 <= d < |w| ==> w[d].Some? && w[d].value <= 0.5
  }

  lemma MaximumIsLow(have: Table, draws: nat, d: nat)
    requires Rectangular(have, draws) && |have| > 0 && d < draws && InAll(have, d) && Shared(Adverse(have, draws), d)
    ensures LowOnly([MaxOver(Adverse(have, draws), d)])
  {
    hide OwnAt, Adverse, InAll, Shared, MaxOver, Rectangular;
    var k := MaxIsReached(Adverse(have, draws), d);
    SharedIsLow(have, draws, k, d);
  }

  /** The maxima of the first `n` draws: one for each shared draw, none above the middle. */
  ghost predicate MaximaLow(have: Table, draws: nat, n: nat)
    requires Rectangular(have, draws) && |have| > 0 && n <= draws
  {
    var w := MaxPercentileNull(Adverse(have, draws), n);
    |w| == SharedCount(have, n) && LowOnly(w)
  }

  lemma {:induction false} MaximaAreLow(have: Table, draws: nat, n: nat)
    requires Rectangular(have, draws) && |have| > 0 && n <= draws
    ensures MaximaLow(have, draws, n)
  {
    if n > 0 {
      hide MaximaLow, Rectangular;
      MaximaAreLow(have, draws, n - 1);
      OneMoreMaximum(have, draws, n - 1);
    }
  }

  lemma OneMoreMaximum(have: Table, draws: nat, n: nat)
    requires Rectangular(have, draws) && |have| > 0 && n < draws && MaximaLow(have, draws, n)
    ensures MaximaLow(have, draws, n + 1)
  {
    hide MaxOver, Adverse, InAll, Shared, Rectangular;
    SharedIsInAll(Adverse(have, draws), have, draws, n);
    var cells := Adverse(have, draws);
    var w := MaxPercentileNull(cells, n);
    if InAll(have, n) {
      MaximumIsLow(have, draws, n);
      LowAppend(w, [MaxOver(cells, n)]);
    } else {
      assert w + [] == w;
    }
  }

  lemma LowAppend(a: seq<Stat>, b: seq<Stat>)
    requires LowOnly(a) && LowOnly(b)
    ensures LowOnly(a + b)
  {
  }

  lemma {:induction false} AllBelow(w: seq<Stat>, v: Stat)
    requires forall d :: 0 <= d < |w| ==> Less(w[d], v)
    ensures Below(w, v) == |w| && Ties(w, v) == 0
  {
    if |w| > 0 {
      AllBelow(w[..|w| - 1], v);
    }
  }

  /** A cell with a draw that others lack, beside a draw they share, can have its percentile raised. */
  lemma {:induction false} ExtraDrawRaises(have: Table, draws: nat, c: nat, shared: nat, extra: nat)
    requires Rectangular(have, draws) && c < |have| && shared < draws && extra < draws
    requires InAll(have, shared) && have[c][extra] && !InAll(have, extra)
    ensures !NeverRaised(Adverse(have, draws), c, draws, Some(1.0))
  {
    hide Sample, MaxPercentileNull, Adverse, InAll, Below, Ties, Percentile, Rectangular, LowOnly;
    AdverseOwn(have, draws, c, shared, extra);
    MaximaAreLow(have, draws, draws);
    CountedUpTo(have, c, draws, shared);
    hide SharedCount;
    AllLow(MaxPercentileNull(Adverse(have, draws), draws), Percentile(Some(1.0), Sample(Adverse(have, draws)[c])));
  }

  /** In the adverse statistics the cell's extra draws lie at its top: their value is above the middle and not
      above everything. */
  lemma AdverseOwn(have: Table, draws: nat, c: nat, shared: nat, extra: nat)
    requires Rectangular(have, draws) && c < |have| && shared < draws && extra < draws
    requires InAll(have, shared) && have[c][extra] && !InAll(have, extra)
    ensures var own := Percentile(Some(1.0), Sample(Adverse(have, draws)[c])); own.Some? && 0.5 < own.value < 1.0
  {
    var cell := Adverse(have, draws)[c];
    assert cell[..draws] == cell;
    hide Sample, Adverse, InAll, Below, Ties, Rectangular;
    AdverseCounts(have, draws, c, draws);
    CountedUpTo(have, c, draws, shared);
    CountedUpTo(have, c, draws, extra);
    hide SharedCount, ExtraCount;
    AboveHalf(SharedCount(have, draws), ExtraCount(have, c, draws));
  }

  lemma AllLow(w: seq<Stat>, own: Stat)
    requires LowOnly(w) && |w| > 0 && own.Some? && own.value > 0.5
    ensures Percentile(own, w) == Some(1.0)
  {
    AllBelow(w, own);
    QuotientIs(|w| as real, |w| as real, 1.0);
  }

  /** Every draw of the cell is shared by all cells. */
  predicate EverySharedDraw(have: Table, draws: nat, c: nat)
    requires c < |have| && |have[c]| == draws
  {
    forall d :: 0 <= d < draws && have[c][d] ==> InAll(have, d)
  }

  predicate NoSharedDraw(have: Table, draws: nat) {
    forall d :: 0 <= d < draws ==> !InAll(have, d)
  }

  /** Whatever the statistics, no percentile of the cell is raised. */
  ghost predicate NeverRaisedOn(have: Table, draws: nat, c: nat)
    requires c < |have|
  {
    forall cells: seq<Cell>, v: Stat :: HasDraws(cells, have, draws) ==> NeverRaised(cells, c, draws, v)
  }

  /** Exactly the tables of draws on which the correction raises no percentile of the cell, whatever the
      statistics: every draw of the cell is shared by all cells, or no draw is. */
  lemma {:induction false} NeverRaisedExactly(have: Table, draws: nat, c: nat)
    requires Rectangular(have, draws) && c < |have|
    ensures NeverRaisedOn(have, draws, c) <==> EverySharedDraw(have, draws, c) || NoSharedDraw(have, draws)
  {
    if EverySharedDraw(have, draws, c) || NoSharedDraw(have, draws) {
      forall cells: seq<Cell>, v: Stat | HasDraws(cells, have, draws)
        ensures NeverRaised(cells, c, draws, v)
      {
        SharedOrNothing(cells, have, draws, c);
        AdjustmentNeverRaises(cells, c, draws, v);
      }
    } else {
      var extra :| 0 <= extra < draws && have[c][extra] && !InAll(have, extra);
      var shared :| 0 <= shared < draws && InAll(have, shared);
      ExtraDrawRaises(have, draws, c, shared, extra);
      assert HasDraws(Adverse(have, draws), have, draws);
    }
  }

  lemma SharedOrNothing(cells: seq<Cell>, have: Table, draws: nat, c: nat)
    requires HasDraws(cells, have, draws) && c < |have| && |have[c]| == draws
    requires EverySharedDraw(have, draws, c) || NoSharedDraw(have, draws)
    ensures AllShared(cells, c, draws) || MaxPercentileNull(cells, draws) == []
  {
    forall d | 0 <= d < draws
      ensures Shared(cells, d) <==> InAll(have, d)
    {
      SharedIsInAll(cells, have, draws, d);
    }
    if NoSharedDraw(have, draws) {
      NothingShared(cells, draws);
    }
  }

  lemma {:induction false} NothingShared(cells: seq<Cell>, n: nat)
    requires forall d :: 0 <= d < n ==> !Shared(cells, d)
    ensures MaxPercentileNull(cells, n) == []
  {
    if n > 0 {
      NothingShared(cells, n - 1);
    }
  }

  /** With a single cell there is nothing to correct for: the percentile is unchanged. */
  lemma {:induction false} SingleCellUnchanged(cell: Cell, v: Stat)
    ensures var own := Percentile(v, Sample(cell));
      Percentile(own, MaxPercentileNull([cell], |cell|)) == own
  {
    SingleMax(cell, |cell|);
    OwnOfAll([cell], 0, |cell|);
    OwnNullIsCalibrated(v, Sample(cell));
  }

  lemma {:induction false} SingleMax(cell: Cell, n: nat)
    requires n <= |cell|
    ensures MaxPercentileNull([cell], n) == SharedOwn([cell], 0, n)
  {
    if n > 0 {
      SingleMax(cell, n - 1);
    }
  }

  /** Every further cell tried can only lower an adjusted percentile, if it has the draws the others share. */
  lemma {:induction false} MoreCellsLower(cells: seq<Cell>, more: Cell, draws: nat, p: Stat)
    requires |cells| > 0
    requires forall d :: 0 <= d < draws && Shared(cells, d) ==> d < |more| && more[d].Drawn?
    ensures !Less(Percentile(p, MaxPercentileNull(cells, draws)),
                  Percentile(p, MaxPercentileNull(cells + [more], draws)))
  {
    var low, high := MaxPercentileNull(cells, draws), MaxPercentileNull(cells + [more], draws);
    MoreDominates(cells, more, draws, p);
    if |low| > 0 {
      PercentileFromCounts(p, low, p, high);
    }
  }

  lemma {:induction false} MoreDominates(cells: seq<Cell>, more: Cell, draws: nat, v: Stat)
    requires |cells| > 0
    requires forall d :: 0 <= d < draws && Shared(cells, d) ==> d < |more| && more[d].Drawn?
    ensures var low, high := MaxPercentileNull(cells, draws), MaxPercentileNull(cells + [more], draws);
      |low| == |high| && 2 * Below(high, v) + Ties(high, v) <= 2 * Below(low, v) + Ties(low, v)
  {
    if draws > 0 {
      var all, d := cells + [more], draws - 1;
      MoreDominates(cells, more, d, v);
      SharedByMore(cells, more, d);
      if Shared(cells, d) {
        assert all[..|cells|] == cells;
        assert !Less(MaxOver(all, d), MaxOver(cells, d));
        hide MaxOver;
        HigherDraw(MaxPercentileNull(cells, d), MaxPercentileNull(all, d), MaxOver(cells, d), MaxOver(all, d), v);
      } else {
        assert MaxPercentileNull(cells, draws) == MaxPercentileNull(cells, d);
        assert MaxPercentileNull(all, draws) == MaxPercentileNull(all, d);
      }
    }
  }

  lemma SharedByMore(cells: seq<Cell>, more: Cell, d: nat)
    requires Shared(cells, d) ==> d < |more| && more[d].Drawn?
    ensures Shared(cells + [more], d) <==> Shared(cells, d)
  {
    assert forall c :: 0 <= c < |cells| ==> (cells + [more])[c] == cells[c];
  }
}
