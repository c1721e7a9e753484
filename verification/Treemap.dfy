/** The squarified treemap and the book map's two-level layout, over exact reals. */
module Treemap {
  import opened Vectors

  datatype Rect = Rect(x: real, y: real, w: real, h: real) {
    /** The half-open box [x, x+w) x [y, y+h). */
    predicate Covers(px: real, py: real) {
      x <= px < x + w && y <= py < y + h
    }
  }

  const NO_BOX := Rect(0.0, 0.0, 0.0, 0.0)

  function Hit(r: Rect, px: real, py: real): nat {
    if r.Covers(px, py) then 1 else 0
  }

  /** How many of the rectangles cover a point. */
  function Hits(rects: seq<Rect>, px: real, py: real): nat {
    if |rects| == 0 then 0 else Hits(rects[..|rects| - 1], px, py) + Hit(rects[|rects| - 1], px, py)
  }

  /** Every point of the box is in exactly one rectangle, every other point in none. */
  ghost predicate Tiles(rects: seq<Rect>, box: Rect) {
    forall px, py :: Hits(rects, px, py) == Hit(box, px, py)
  }

  // ------------------------------------------------------------------ tilings

  lemma {:induction false} HitsConcat(a: seq<Rect>, b: seq<Rect>, px: real, py: real)
    ensures Hits(a + b, px, py) == Hits(a, px, py) + Hits(b, px, py)
  {
    if |b| == 0 {
      assert a + b == a;
    } else {
      assert (a + b)[..|a + b| - 1] == a + b[..|b| - 1];
      HitsConcat(a, b[..|b| - 1], px, py);
    }
  }

  lemma HitsOne(r: Rect, px: real, py: real)
    ensures Hits([r], px, py) == Hit(r, px, py)
  {
    assert [r][..0] == [];
  }

  lemma HitsTwo(r: Rect, s: Rect, px: real, py: real)
    ensures Hits([r, s], px, py) == Hit(r, px, py) + Hit(s, px, py)
  {
    assert [r, s] == [r] + [s];
    HitsConcat([r], [s], px, py);
    HitsOne(r, px, py);
    HitsOne(s, px, py);
  }

  lemma {:induction false} HitsUpdate(rects: seq<Rect>, i: nat, r: Rect, px: real, py: real)
    requires i < |rects|
    ensures Hits(rects[i := r], px, py) == Hits(rects, px, py) - Hit(rects[i], px, py) + Hit(r, px, py)
  {
    var n := |rects| - 1;
    if i == n {
      assert rects[i := r][..n] == rects[..n];
    } else {
      assert rects[i := r][..n] == rects[..n][i := r];
      HitsUpdate(rects[..n], i, r, px, py);
    }
  }

  /** Tiling one tile of a tiling refines the tiling. */
  lemma TileATile(before: seq<Rect>, tile: Rect, parts: seq<Rect>, after: seq<Rect>, box: Rect)
    requires Tiles(before + [tile] + after, box) && Tiles(parts, tile)
    ensures Tiles(before + parts + after, box)
  {
    forall px, py
      ensures Hits(before + parts + after, px, py) == Hit(box, px, py)
    {
      HitsConcat(before + [tile], after, px, py);
      HitsConcat(before, [tile], px, py);
      HitsOne(tile, px, py);
      HitsConcat(before + parts, after, px, py);
      HitsConcat(before, parts, px, py);
    }
  }

  lemma CutLeft(r: Rect, w: real)
    requires 0.0 <= w <= r.w
    ensures Tiles([Rect(r.x, r.y, w, r.h), Rect(r.x + w, r.y, r.w - w, r.h)], r)
  {
    var a, b := Rect(r.x, r.y, w, r.h), Rect(r.x + w, r.y, r.w - w, r.h);
    forall px, py
      ensures Hits([a, b], px, py) == Hit(r, px, py)
    {
      HitsTwo(a, b, px, py);
    }
  }

  lemma CutTop(r: Rect, h: real)
    requires 0.0 <= h <= r.h
    ensures Tiles([Rect(r.x, r.y, r.w, h), Rect(r.x, r.y + h, r.w, r.h - h)], r)
  {
    var a, b := Rect(r.x, r.y, r.w, h), Rect(r.x, r.y + h, r.w, r.h - h);
    forall px, py
      ensures Hits([a, b], px, py) == Hit(r, px, py)
    {
      HitsTwo(a, b, px, py);
    }
  }

  /** A tile without a point can be dropped. */
  lemma DropEmpty(before: seq<Rect>, empty: Rect, after: seq<Rect>, box: Rect)
    requires Tiles(before + [empty] + after, box) && (empty.w <= 0.0 || empty.h <= 0.0)
    ensures Tiles(before + after, box)
  {
    forall px, py
      ensures Hits([], px, py) == Hit(empty, px, py)
    {
    }
    TileATile(before, empty, [], after, box);
    assert before + [] + after == before + after;
  }

  /** In a tiling a point of the box has exactly one rectangle. */
  lemma {:induction false} ExactlyOne(rects: seq<Rect>, px: real, py: real) returns (k: nat)
    requires Hits(rects, px, py) == 1
    ensures k < |rects| && rects[k].Covers(px, py)
    ensures forall i :: 0 <= i < |rects| && rects[i].Covers(px, py) ==> i == k
  {
    var n := |rects| - 1;
    if rects[n].Covers(px, py) {
      k := n;
      NoHit(rects[..n], px, py);
      assert forall i :: 0 <= i < n ==> rects[..n][i] == rects[i];
    } else {
      k := ExactlyOne(rects[..n], px, py);
      assert forall i :: 0 <= i < n ==> rects[..n][i] == rects[i];
    }
  }

  lemma {:induction false} NoHit(rects: seq<Rect>, px: real, py: real)
    requires Hits(rects, px, py) == 0
    ensures forall i :: 0 <= i < |rects| ==> !rects[i].Covers(px, py)
  {
    if |rects| > 0 {
      NoHit(rects[..|rects| - 1], px, py);
      assert forall i :: 0 <= i < |rects| - 1 ==> rects[..|rects| - 1][i] == rects[i];
    }
  }

  // ------------------------------------------------------------------ sums and shares

  predicate AllPositive(v: Vec) {
    forall k :: 0 <= k < |v| ==> v[k] > 0.0
  }

  lemma {:induction false} SumConcat(a: Vec, b: Vec)
    ensures Sum(a + b) == Sum(a) + Sum(b)
  {
    if |b| == 0 {
      assert a + b == a;
    } else {
      assert (a + b)[..|a + b| - 1] == a + b[..|b| - 1];
      SumConcat(a, b[..|b| - 1]);
    }
  }

  lemma {:induction false} PositiveSum(v: Vec)
    requires AllPositive(v)
    ensures Sum(v) >= 0.0 && (|v| > 0 ==> Sum(v) > 0.0)
  {
    if |v| > 0 {
      PositiveSum(v[..|v| - 1]);
    }
  }

  lemma SumAppend(v: Vec, a: real)
    ensures Sum(v + [a]) == Sum(v) + a
  {
    assert (v + [a])[..|v|] == v;
  }

  lemma SumSplit(v: Vec, i: nat, j: nat)
    requires i <= j <= |v|
    ensures Sum(v[i..]) == Sum(v[i..j]) + Sum(v[j..])
  {
    assert v[i..] == v[i..j] + v[j..];
    SumConcat(v[i..j], v[j..]);
  }

  function Share(value: real, width: real, height: real, total: real): real
    requires total != 0.0
  {
    value * width * height / total
  }

  /** The areas the values get in the box. */
  function Areas(values: Vec, width: real, height: real, total: real): (areas: Vec)
    requires total != 0.0
    ensures |areas| == |values|
  {
    seq(|values|, k requires 0 <= k < |values| => Share(values[k], width, height, total))
  }

  lemma {:induction false} SumOfAreas(values: Vec, width: real, height: real, total: real)
    requires total != 0.0
    ensures Sum(Areas(values, width, height, total)) == Share(Sum(values), width, height, total)
  {
    hide Share;
    var n := |values|;
    if n > 0 {
      var areas := Areas(values, width, height, total);
      assert areas[..n - 1] == Areas(values[..n - 1], width, height, total);
      SumOfAreas(values[..n - 1], width, height, total);
      ShareOfSum(Sum(values[..n - 1]), values[n - 1], width, height, total);
    } else {
      ShareOfSum(0.0, 0.0, width, height, total);
    }
  }

  lemma ShareOfSum(a: real, b: real, w: real, h: real, t: real)
    requires t != 0.0
    ensures Share(a + b, w, h, t) == Share(a, w, h, t) + Share(b, w, h, t)
  {
    assert (a + b) * w * h == a * w * h + b * w * h by {
      assert (a + b) * w == a * w + b * w;
    }
  }

  lemma PositiveAreas(values: Vec, width: real, height: real, total: real)
    requires AllPositive(values) && width > 0.0 && height > 0.0 && total > 0.0
    ensures AllPositive(Areas(values, width, height, total))
  {
    forall k | 0 <= k < |values|
      ensures Share(values[k], width, height, total) > 0.0
    {
      assert values[k] * width > 0.0;
      PositiveQuotient(values[k] * width * height, total);
    }
  }

  lemma PositiveQuotient(a: real, b: real)
    requires a > 0.0 && b > 0.0
    ensures a / b > 0.0
  {
    assert a / b * b == a;
  }

  // ------------------------------------------------------------------ squarify

  /** The source's ratio of one area in a row of total `s` along a side. */
  function Ratio(r: real, side: real, s: real): real
    requires side * side * r > 0.0 && s * s > 0.0
  {
    Max(side * side * r / (s * s), (s * s) / (side * side * r))
  }

  function WorstOf(row: Vec, side: real, s: real): real
    requires AllPositive(row) && |row| > 0 && side > 0.0 && s > 0.0
  {
    var r := row[|row| - 1];
    assert side * side * r > 0.0 && s * s > 0.0 by { assert side * side > 0.0; }
    var here := Ratio(r, side, s);
    if |row| == 1 then here else Max(WorstOf(row[..|row| - 1], side, s), here)
  }

  /** The worst aspect ratio of a row laid along a side. */
  function Worst(row: Vec, side: real): real
    requires AllPositive(row) && |row| > 0 && side > 0.0
  {
    PositiveSum(row);
    WorstOf(row, side, Sum(row))
  }

  // ------------------------------------------------------------------ the rows as rectangles

  /** A row's strip lies along the shorter side of the box: its thickness is the row's area over that side. */
  function Thickness(row: Vec, left: Rect): real
    requires left.w > 0.0 && left.h > 0.0
  {
    Sum(row) / if left.w >= left.h then left.h else left.w
  }

  /** The rectangle the `k`-th area of a row gets: a piece of the strip on the left edge of a wide box, or on the
      top edge of a high one, after the pieces of the areas before it. */
  function Piece(row: Vec, k: nat, left: Rect): Rect
    requires k < |row| && left.w > 0.0 && left.h > 0.0 && Thickness(row, left) > 0.0
  {
    var t := Thickness(row, left);
    if left.w >= left.h then Rect(left.x, left.y + Sum(row[..k]) / t, t, row[k] / t)
    else Rect(left.x + Sum(row[..k]) / t, left.y, row[k] / t, t)
  }

  /** What a row's strip leaves of the box. */
  function RestOf(row: Vec, left: Rect): Rect
    requires left.w > 0.0 && left.h > 0.0
  {
    var t := Thickness(row, left);
    if left.w >= left.h then Rect(left.x + t, left.y, left.w - t, left.h) else Rect(left.x, left.y + t, left.w, left.h - t)
  }

  /** How far a rectangle is from a square: its longer side over its shorter one. */
  function Aspect(r: Rect): real
    requires r.w > 0.0 && r.h > 0.0
  {
    if r.w >= r.h then r.w / r.h else r.h / r.w
  }

  /** The greatest aspect of the rectangles a row gets. */
  ghost predicate WorstAspect(row: Vec, left: Rect, a: real)
    requires AllPositive(row) && |row| > 0 && left.w > 0.0 && left.h > 0.0
  {
    ThicknessIsPositive(row, left);
    && (forall k :: 0 <= k < |row| ==> PieceHasSides(row, k, left) && Aspect(Piece(row, k, left)) <= a)
    && (exists k :: 0 <= k < |row| && PieceHasSides(row, k, left) && Aspect(Piece(row, k, left)) == a)
  }

  predicate PieceHasSides(row: Vec, k: nat, left: Rect)
    requires k < |row| && left.w > 0.0 && left.h > 0.0 && Thickness(row, left) > 0.0
  {
    Piece(row, k, left).w > 0.0 && Piece(row, k, left).h > 0.0
  }

  lemma ThicknessIsPositive(row: Vec, left: Rect)
    requires AllPositive(row) && |row| > 0 && left.w > 0.0 && left.h > 0.0
    ensures Thickness(row, left) > 0.0
  {
    PositiveSum(row);
    PositiveQuotient(Sum(row), if left.w >= left.h then left.h else left.w);
  }

  /** The ratio the source computes for one area is the aspect of the rectangle it gets. */
  lemma RatioIsAspect(r: real, side: real, s: real, t: real, l: real)
    requires r > 0.0 && side > 0.0 && s > 0.0 && t == s / side && t > 0.0 && l == r / t
    ensures side * side * r > 0.0 && s * s > 0.0 && l > 0.0
    ensures Ratio(r, side, s) == if t >= l then t / l else l / t
  {
    assert t * side == s;
    PositiveQuotient(r, t);
    PositiveProducts(side, r, s);
    var a, b := t / l, l / t;
    assert a * l == t && b * t == l && l * t == r;
    RatioOf(t, l, side, s, r, a, b);
    QuotientIs(side * side * r, s * s, b);
    QuotientIs(s * s, side * side * r, a);
    LongerOverShorter(t, l);
  }

  lemma PositiveProducts(side: real, r: real, s: real)
    requires r > 0.0 && side > 0.0 && s > 0.0
    ensures side * side * r > 0.0 && s * s > 0.0
  {
    assert side * side > 0.0;
  }

  lemma RatioOf(t: real, l: real, side: real, s: real, r: real, a: real, b: real)
    requires t * side == s && l * t == r && a * l == t && b * t == l
    ensures b * (s * s) == side * side * r
    ensures a * (side * side * r) == s * s
  {
    assert s * s == (t * t) * (side * side);
    assert b * (s * s) == ((b * t) * t) * (side * side);
    assert side * side * r == (side * side) * (l * t);
    assert a * ((side * side) * (l * t)) == ((a * l) * t) * (side * side);
  }

  lemma LongerOverShorter(t: real, l: real)
    requires t > 0.0 && l > 0.0
    ensures Max(l / t, t / l) == if t >= l then t / l else l / t
  {
    if t >= l {
      AtLeastOne(t, l);
    } else {
      AtLeastOne(l, t);
    }
  }

  lemma AtLeastOne(a: real, b: real)
    requires a >= b > 0.0
    ensures a / b >= 1.0 && b / a <= 1.0
  {
    QuotientIs(b, b, 1.0);
    QuotientIs(a, a, 1.0);
    QuotientOrder(b, a, b);
    QuotientOrder(b, a, a);
  }

  lemma PieceAspect(row: Vec, k: nat, left: Rect)
    requires AllPositive(row) && k < |row| && left.w > 0.0 && left.h > 0.0
    ensures Thickness(row, left) > 0.0 && Sum(row) > 0.0
    ensures PieceHasSides(row, k, left)
    ensures var side := Min(left.w, left.h);
      && side * side * row[k] > 0.0 && Sum(row) * Sum(row) > 0.0
      && Aspect(Piece(row, k, left)) == Ratio(row[k], side, Sum(row))
  {
    PositiveSum(row);
    ThicknessIsPositive(row, left);
    hide Sum;
    var side, t := Min(left.w, left.h), Thickness(row, left);
    assert t == Sum(row) / side;
    var l, piece := row[k] / t, Piece(row, k, left);
    RatioIsAspect(row[k], side, Sum(row), t, l);
    assert if left.w >= left.h then piece.w == t && piece.h == l else piece.w == l && piece.h == t;
  }

  /** What the source's test computes for a row is the greatest aspect of the rectangles it gets. */
  lemma {:induction false} WorstOfIsGreatest(row: Vec, side: real, s: real)
    requires AllPositive(row) && |row| > 0 && side > 0.0 && s > 0.0
    ensures forall k :: 0 <= k < |row| ==> side * side * row[k] > 0.0 && s * s > 0.0 && Ratio(row[k], side, s) <= WorstOf(row, side, s)
    ensures exists k :: 0 <= k < |row| && Ratio(row[k], side, s) == WorstOf(row, side, s)
  {
    var n := |row| - 1;
    forall k | 0 <= k < |row|
      ensures side * side * row[k] > 0.0 && s * s > 0.0
    {
      PositiveProducts(side, row[k], s);
    }
    hide Ratio;
    if n > 0 {
      WorstOfIsGreatest(row[..n], side, s);
      assert forall k :: 0 <= k < n ==> row[..n][k] == row[k];
      var k :| 0 <= k < n && Ratio(row[..n][k], side, s) == WorstOf(row[..n], side, s);
      assert WorstOf(row, side, s) == Ratio(row[k], side, s) || WorstOf(row, side, s) == Ratio(row[n], side, s);
    } else {
      assert WorstOf(row, side, s) == Ratio(row[0], side, s);
    }
  }

  lemma {:induction false} WorstIsWorstAspect(row: Vec, left: Rect)
    requires AllPositive(row) && |row| > 0 && left.w > 0.0 && left.h > 0.0
    ensures WorstAspect(row, left, Worst(row, Min(left.w, left.h)))
  {
    PositiveSum(row);
    var side := Min(left.w, left.h);
    WorstOfIsGreatest(row, side, Sum(row));
    forall k | 0 <= k < |row|
      ensures Thickness(row, left) > 0.0 && PieceHasSides(row, k, left)
      ensures side * side * row[k] > 0.0 && Sum(row) * Sum(row) > 0.0
      ensures Aspect(Piece(row, k, left)) == Ratio(row[k], side, Sum(row))
    {
      PieceAspect(row, k, left);
    }
    hide Piece, PieceHasSides, Thickness, Aspect, WorstOf, Ratio, Sum;
    var k :| 0 <= k < |row| && Ratio(row[k], side, Sum(row)) == WorstOf(row, side, Sum(row));
    assert PieceHasSides(row, k, left) && Aspect(Piece(row, k, left)) == WorstOf(row, side, Sum(row));
  }

  /** The longer row is not worse than the row it extends. */
  ghost predicate NotWorse(row: Vec, longer: Vec, left: Rect)
    requires AllPositive(row) && |row| > 0 && AllPositive(longer) && |longer| > 0 && left.w > 0.0 && left.h > 0.0
  {
    exists a, b :: WorstAspect(row, left, a) && WorstAspect(longer, left, b) && b <= a
  }

  lemma OneWorstAspect(row: Vec, left: Rect, a: real, b: real)
    requires AllPositive(row) && |row| > 0 && left.w > 0.0 && left.h > 0.0
    requires WorstAspect(row, left, a) && WorstAspect(row, left, b)
    ensures a == b
  {
    hide Aspect, Piece, Thickness, PieceHasSides;
  }

  lemma {:induction false} NotWorseExactly(row: Vec, longer: Vec, left: Rect)
    requires AllPositive(row) && |row| > 0 && AllPositive(longer) && |longer| > 0 && left.w > 0.0 && left.h > 0.0
    ensures NotWorse(row, longer, left) <==> Worst(longer, Min(left.w, left.h)) <= Worst(row, Min(left.w, left.h))
  {
    hide Worst, WorstAspect;
    WorstIsWorstAspect(row, left);
    WorstIsWorstAspect(longer, left);
    if NotWorse(row, longer, left) {
      var a, b :| WorstAspect(row, left, a) && WorstAspect(longer, left, b) && b <= a;
      OneWorstAspect(row, left, a, Worst(row, Min(left.w, left.h)));
      OneWorstAspect(longer, left, b, Worst(longer, Min(left.w, left.h)));
    }
  }

  /** The areas from `i` to `j` are the next row: each was added because the row did not get worse by it, and
      the next one would make it worse. */
  ghost predicate NextRow(areas: Vec, i: nat, j: nat, left: Rect)
    requires AllPositive(areas) && left.w > 0.0 && left.h > 0.0
  {
    && i < j <= |areas|
    && (forall k :: i < k < j ==> NotWorse(areas[i..k], areas[i..k + 1], left))
    && (j < |areas| ==> !NotWorse(areas[i..j], areas[i..j + 1], left))
  }

  /** The rectangles of the areas from `i` on are squarified into the box `left`: the next row gets its pieces of
      the strip, and the rest is squarified into what the strip leaves. */
  ghost predicate Squarified(out: seq<Rect>, areas: Vec, i: nat, left: Rect)
    requires AllPositive(areas) && i <= |areas|
    decreases |areas| - i
  {
    if i == |areas| then out == [] else
    && left.w > 0.0 && left.h > 0.0
    && exists j: nat :: NextRow(areas, i, j, left) && |out| >= j - i && RowLaid(out[..j - i], areas[i..j], left)
                   && Squarified(out[j - i..], areas, j, RestOf(areas[i..j], left))
  }

  ghost predicate RowLaid(tiles: seq<Rect>, row: Vec, left: Rect)
    requires AllPositive(row) && |row| > 0 && left.w > 0.0 && left.h > 0.0
  {
    ThicknessIsPositive(row, left);
    |tiles| == |row| && forall k :: 0 <= k < |row| ==> tiles[k] == Piece(row, k, left)
  }

  /** The rectangle of every area is inside its own share of the box. */
  ghost predicate HasAreas(rects: seq<Rect>, areas: Vec) {
    |rects| == |areas| && forall k :: 0 <= k < |areas| ==> rects[k].w > 0.0 && rects[k].h > 0.0 && Holds(rects[k].w, rects[k].h, areas[k])
  }

  /** A strip `thick` wide holds the area `area` on a length `side`. */
  predicate Holds(thick: real, side: real, area: real) {
    thick * side == area
  }

  /** With a part `done` of a strip filled, the next area `a` takes `a / thick` of what is left. */
  lemma StripStep(thick: real, side: real, done: real, before: real, a: real, total: real)
    requires thick > 0.0 && a > 0.0 && Holds(thick, done, before) && before + a <= total && Holds(thick, side, total)
    ensures a / thick > 0.0 && Holds(thick, a / thick, a) && Holds(thick, done + a / thick, before + a)
    ensures done + a / thick <= side
  {
    var d := a / thick;
    PositiveQuotient(a, thick);
    assert d * thick == a;
    assert thick * (done + d) == thick * done + thick * d;
    Cancel(thick, done + d, side);
  }

  lemma StripOffset(thick: real, done: real, area: real)
    requires thick > 0.0 && Holds(thick, done, area)
    ensures done == area / thick
  {
    QuotientIs(area, thick, done);
  }

  lemma StripFull(thick: real, side: real, done: real, total: real)
    requires thick > 0.0 && Holds(thick, done, total) && Holds(thick, side, total)
    ensures done == side
  {
    Cancel(thick, done, side);
    Cancel(thick, side, done);
  }

  lemma Turned(thick: real, side: real, area: real)
    requires Holds(thick, side, area)
    ensures Holds(side, thick, area)
  {
  }

  lemma EmptySum(v: Vec)
    requires v == []
    ensures Sum(v) == 0.0
  {
  }

  lemma NothingHeld(thick: real)
    ensures Holds(thick, 0.0, 0.0)
  {
  }

  /** The next tile of a strip: `tile` and `rest` cut what is left of it. */
  lemma NextTile(out: seq<Rect>, left: Rect, tile: Rect, rest: Rect, strip: Rect)
    requires Tiles(out + [left], strip) && Tiles([tile, rest], left)
    ensures Tiles(out + [tile] + [rest], strip)
  {
    assert out + [left] + [] == out + [left];
    TileATile(out, left, [tile, rest], [], strip);
    assert out + [tile, rest] + [] == out + [tile] + [rest];
  }

  lemma LastTile(out: seq<Rect>, rest: Rect, strip: Rect)
    requires Tiles(out + [rest], strip) && (rest.w <= 0.0 || rest.h <= 0.0)
    ensures Tiles(out, strip)
  {
    assert out + [rest] + [] == out + [rest];
    DropEmpty(out, rest, [], strip);
    assert out + [] == out;
  }

  /** The first `k` areas of a row stand one below the other, each where the areas before it end. */
  predicate ColumnLaid(out: seq<Rect>, row: Vec, k: nat, x: real, y: real, col: real)
    requires k <= |row| && col > 0.0
  {
    |out| == k && forall l :: 0 <= l < k ==> out[l] == Rect(x, y + Sum(row[..l]) / col, col, row[l] / col)
  }

  /** Or side by side. */
  predicate RowAcross(out: seq<Rect>, row: Vec, k: nat, x: real, y: real, rh: real)
    requires k <= |row| && rh > 0.0
  {
    |out| == k && forall l :: 0 <= l < k ==> out[l] == Rect(x + Sum(row[..l]) / rh, y, row[l] / rh, rh)
  }

  lemma NoColumn(row: Vec, x: real, y: real, col: real)
    requires col > 0.0
    ensures ColumnLaid([], row, 0, x, y, col)
  {
  }

  lemma NoneAcross(row: Vec, x: real, y: real, rh: real)
    requires rh > 0.0
    ensures RowAcross([], row, 0, x, y, rh)
  {
  }

  lemma OneLower(out: seq<Rect>, row: Vec, k: nat, x: real, y: real, col: real, tile: Rect)
    requires k < |row| && col > 0.0 && ColumnLaid(out, row, k, x, y, col)
    requires tile == Rect(x, y + Sum(row[..k]) / col, col, row[k] / col)
    ensures ColumnLaid(out + [tile], row, k + 1, x, y, col)
  {
    hide Sum;
  }

  lemma OneAcross(out: seq<Rect>, row: Vec, k: nat, x: real, y: real, rh: real, tile: Rect)
    requires k < |row| && rh > 0.0 && RowAcross(out, row, k, x, y, rh)
    requires tile == Rect(x + Sum(row[..k]) / rh, y, row[k] / rh, rh)
    ensures RowAcross(out + [tile], row, k + 1, x, y, rh)
  {
    hide Sum;
  }

  lemma OneMoreArea(out: seq<Rect>, areas: Vec, k: nat, tile: Rect)
    requires k < |areas| && HasAreas(out, areas[..k]) && tile.w > 0.0 && tile.h > 0.0 && Holds(tile.w, tile.h, areas[k])
    ensures HasAreas(out + [tile], areas[..k + 1])
  {
    hide Holds;
  }

  /** A column of rectangles of width `col` down the strip, one per area of the row. */
  method LayColumn(row: Vec, x: real, y: real, col: real, h: real) returns (out: seq<Rect>)
    requires AllPositive(row) && col > 0.0 && h >= 0.0 && Holds(col, h, Sum(row))
    ensures ColumnLaid(out, row, |row|, x, y, col)
    ensures HasAreas(out, row) && Tiles(out, Rect(x, y, col, h))
  {
    hide Tiles, Holds, Sum, ColumnLaid, HasAreas;
    NoColumn(row, x, y, col);
    NoAreas(row[..0]);
    out := [];
    var yy := y;
    HitsAlone(Rect(x, y, col, h));
    EmptySum(row[..0]);
    NothingHeld(col);
    for k := 0 to |row|
      invariant y <= yy <= y + h && Holds(col, yy - y, Sum(row[..k]))
      invariant ColumnLaid(out, row, k, x, y, col)
      invariant HasAreas(out, row[..k])
      invariant Tiles(out + [Rect(x, yy, col, y + h - yy)], Rect(x, y, col, h))
    {
      var rh := row[k] / col;
      assert row[..k + 1] == row[..k] + [row[k]];
      SumAppend(row[..k], row[k]);
      PrefixSum(row, k + 1);
      StripStep(col, h, yy - y, Sum(row[..k]), row[k], Sum(row));
      StripOffset(col, yy - y, Sum(row[..k]));
      var left, tile := Rect(x, yy, col, y + h - yy), Rect(x, yy, col, rh);
      CutTop(left, rh);
      NextTile(out, left, tile, Rect(x, yy + rh, col, left.h - rh), Rect(x, y, col, h));
      OneLower(out, row, k, x, y, col, tile);
      OneMoreArea(out, row, k, tile);
      out := out + [tile];
      yy := yy + rh;
      assert y + h - yy == left.h - rh;
    }
    assert row[..|row|] == row;
    StripFull(col, h, yy - y, Sum(row));
    LastTile(out, Rect(x, yy, col, y + h - yy), Rect(x, y, col, h));
  }

  /** A row of rectangles of height `rh` across the strip, one per area of the row. */
  method LayRow(row: Vec, x: real, y: real, w: real, rh: real) returns (out: seq<Rect>)
    requires AllPositive(row) && rh > 0.0 && w >= 0.0 && Holds(rh, w, Sum(row))
    ensures RowAcross(out, row, |row|, x, y, rh)
    ensures HasAreas(out, row) && Tiles(out, Rect(x, y, w, rh))
  {
    hide Tiles, Holds, Sum, RowAcross, HasAreas;
    NoneAcross(row, x, y, rh);
    NoAreas(row[..0]);
    out := [];
    var xx := x;
    HitsAlone(Rect(x, y, w, rh));
    EmptySum(row[..0]);
    NothingHeld(rh);
    for k := 0 to |row|
      invariant x <= xx <= x + w && Holds(rh, xx - x, Sum(row[..k]))
      invariant RowAcross(out, row, k, x, y, rh)
      invariant HasAreas(out, row[..k])
      invariant Tiles(out + [Rect(xx, y, x + w - xx, rh)], Rect(x, y, w, rh))
    {
      var cw := row[k] / rh;
      assert row[..k + 1] == row[..k] + [row[k]];
      SumAppend(row[..k], row[k]);
      PrefixSum(row, k + 1);
      StripStep(rh, w, xx - x, Sum(row[..k]), row[k], Sum(row));
      Turned(rh, cw, row[k]);
      StripOffset(rh, xx - x, Sum(row[..k]));
      var left, tile := Rect(xx, y, x + w - xx, rh), Rect(xx, y, cw, rh);
      CutLeft(left, cw);
      NextTile(out, left, tile, Rect(xx + cw, y, left.w - cw, rh), Rect(x, y, w, rh));
      OneAcross(out, row, k, x, y, rh, tile);
      OneMoreArea(out, row, k, tile);
      out := out + [tile];
      xx := xx + cw;
      assert x + w - xx == left.w - cw;
    }
    assert row[..|row|] == row;
    StripFull(rh, w, xx - x, Sum(row));
    LastTile(out, Rect(xx, y, x + w - xx, rh), Rect(x, y, w, rh));
  }

  lemma HitsAlone(r: Rect)
    ensures Tiles([] + [r], r)
  {
    forall px, py
      ensures Hits([] + [r], px, py) == Hit(r, px, py)
    {
      assert [] + [r] == [r];
      HitsOne(r, px, py);
    }
  }

  lemma PrefixSum(v: Vec, k: nat)
    requires AllPositive(v) && k <= |v|
    ensures Sum(v[..k]) <= Sum(v)
  {
    assert v == v[..k] + v[k..];
    SumConcat(v[..k], v[k..]);
    PositiveSum(v[k..]);
  }

  lemma Cancel(c: real, a: real, b: real)
    requires c > 0.0 && c * a <= c * b
    ensures a <= b
  {
    var d := a - b;
    assert c * d <= 0.0;
    if d > 0.0 {
      ProductSign(c, d);
    }
  }

  lemma ProductSign(c: real, d: real)
    requires c > 0.0 && d > 0.0
    ensures c * d > 0.0
  {
  }

  /** A strip of area `s` cut off one end of a box `along` x `across`. */
  lemma TakeStrip(along: real, across: real, s: real, total: real)
    requires across > 0.0 && 0.0 < s <= total && Holds(along, across, total)
    ensures 0.0 < s / across <= along && Holds(s / across, across, s) && Holds(along - s / across, across, total - s)
  {
    var d := s / across;
    PositiveQuotient(s, across);
    assert d * across == s;
    assert (along - d) * across == along * across - d * across;
    Cancel(across, d, along);
  }

  lemma PositiveSides(w: real, h: real, area: real)
    requires w >= 0.0 && h >= 0.0 && area > 0.0 && Holds(w, h, area)
    ensures w > 0.0 && h > 0.0
  {
  }

  lemma EmptySide(w: real, h: real)
    requires Holds(w, h, 0.0)
    ensures w == 0.0 || h == 0.0
  {
  }

  /** A strip cut off the remaining box and tiled. */
  lemma LayStrip(out: seq<Rect>, left: Rect, strip: Rect, tiles: seq<Rect>, rest: Rect, box: Rect)
    requires Tiles(out + [left], box) && Tiles([strip, rest], left) && Tiles(tiles, strip)
    ensures Tiles(out + tiles + [rest], box)
  {
    NextTile(out, left, strip, rest, box);
    TileATile(out, strip, tiles, [rest], box);
  }

  lemma HasAreasConcat(a: seq<Rect>, b: seq<Rect>, areas: Vec, i: nat, j: nat)
    requires i <= j <= |areas| && HasAreas(a, areas[..i]) && HasAreas(b, areas[i..j])
    ensures HasAreas(a + b, areas[..j])
  {
    assert areas[..j] == areas[..i] + areas[i..j];
  }

  /** The next row: areas are added while the worst aspect of its rectangles does not get worse. */
  method GrowRow(areas: Vec, i: nat, side: real, ghost left: Rect) returns (row: Vec, j: nat)
    requires AllPositive(areas) && i < |areas| && left.w > 0.0 && left.h > 0.0 && side == Min(left.w, left.h)
    ensures i < j <= |areas| && row == areas[i..j] && NextRow(areas, i, j, left)
  {
    hide Worst, NotWorse;
    row := [areas[i]];
    j := i + 1;
    while j < |areas| && Worst(row + [areas[j]], side) <= Worst(row, side)
      invariant i < j <= |areas| && row == areas[i..j]
      invariant forall k :: i < k < j ==> NotWorse(areas[i..k], areas[i..k + 1], left)
    {
      assert areas[i..j + 1] == row + [areas[j]];
      NotWorseExactly(areas[i..j], areas[i..j + 1], left);
      row := row + [areas[j]];
      j := j + 1;
    }
    if j < |areas| {
      assert areas[i..j + 1] == row + [areas[j]];
      NotWorseExactly(areas[i..j], areas[i..j + 1], left);
    }
  }

  /** One strip along the shorter side of the remaining box, tiled by its row. */
  method LayShorterSide(row: Vec, left: Rect, ghost total: real) returns (tiles: seq<Rect>, rest: Rect, ghost strip: Rect)
    requires AllPositive(row) && |row| > 0 && left.w > 0.0 && left.h > 0.0
    requires Sum(row) <= total && Holds(left.w, left.h, total)
    ensures HasAreas(tiles, row) && Tiles(tiles, strip) && Tiles([strip, rest], left)
    ensures RowLaid(tiles, row, left) && rest == RestOf(row, left)
    ensures if left.w >= left.h then strip.h == left.h else strip.w == left.w
    ensures rest.w >= 0.0 && rest.h >= 0.0 && Holds(rest.w, rest.h, total - Sum(row))
  {
    hide Tiles, Holds, HasAreas, Sum;
    ThicknessIsPositive(row, left);
    var s := Sum(row);
    PositiveSum(row);
    if left.w >= left.h {
      TakeStrip(left.w, left.h, s, total);
      var col := s / left.h;
      tiles := LayColumn(row, left.x, left.y, col, left.h);
      CutLeft(left, col);
      strip, rest := Rect(left.x, left.y, col, left.h), Rect(left.x + col, left.y, left.w - col, left.h);
    } else {
      Turned(left.w, left.h, total);
      TakeStrip(left.h, left.w, s, total);
      var rh := s / left.w;
      tiles := LayRow(row, left.x, left.y, left.w, rh);
      CutTop(left, rh);
      strip, rest := Rect(left.x, left.y, left.w, rh), Rect(left.x, left.y + rh, left.w, left.h - rh);
      Turned(left.h - rh, left.w, total - s);
    }
  }

  /** With the rows laid so far, whatever squarifies the rest into `left` squarifies the whole. */
  ghost predicate SquarifiedAfter(out: seq<Rect>, areas: Vec, i: nat, left: Rect, box: Rect)
    requires AllPositive(areas) && i <= |areas|
  {
    forall rest :: Squarified(rest, areas, i, left) ==> Squarified(out + rest, areas, 0, box)
  }

  lemma NothingSquarified(areas: Vec, box: Rect)
    requires AllPositive(areas)
    ensures SquarifiedAfter([], areas, 0, box, box)
  {
    forall rest | Squarified(rest, areas, 0, box)
      ensures Squarified([] + rest, areas, 0, box)
    {
      assert [] + rest == rest;
    }
  }

  lemma RowSquarified(out: seq<Rect>, tiles: seq<Rect>, areas: Vec, i: nat, j: nat, left: Rect, next: Rect, box: Rect)
    requires AllPositive(areas) && i < j <= |areas| && left.w > 0.0 && left.h > 0.0 && SquarifiedAfter(out, areas, i, left, box)
    requires NextRow(areas, i, j, left) && RowLaid(tiles, areas[i..j], left) && next == RestOf(areas[i..j], left)
    ensures SquarifiedAfter(out + tiles, areas, j, next, box)
  {
    hide NextRow, Piece, RestOf;
    forall rest | Squarified(rest, areas, j, next)
      ensures Squarified(out + tiles + rest, areas, 0, box)
    {
      assert (tiles + rest)[..j - i] == tiles && (tiles + rest)[j - i..] == rest;
      assert Squarified(tiles + rest, areas, i, left);
      assert out + (tiles + rest) == out + tiles + rest;
    }
  }

  lemma AllSquarified(out: seq<Rect>, areas: Vec, left: Rect, box: Rect)
    requires AllPositive(areas) && SquarifiedAfter(out, areas, |areas|, left, box)
    ensures Squarified(out, areas, 0, box)
  {
    assert Squarified([], areas, |areas|, left);
    assert out + [] == out;
  }

  /** The loop of the squarified layout on positive values and a positive box. */
  method LayOut(values: Vec, width: real, height: real, total: real) returns (out: seq<Rect>)
    requires AllPositive(values) && |values| > 0 && width > 0.0 && height > 0.0 && total == Sum(values) && total > 0.0
    ensures HasAreas(out, Areas(values, width, height, total))
    ensures Tiles(out, Rect(0.0, 0.0, width, height))
    ensures AllPositive(Areas(values, width, height, total))
    ensures Squarified(out, Areas(values, width, height, total), 0, Rect(0.0, 0.0, width, height))
  {
    hide Tiles, Holds, Share, HasAreas, Worst, Squarified, NextRow, RowLaid, RestOf, SquarifiedAfter;
    var areas := Areas(values, width, height, total);
    PositiveAreas(values, width, height, total);
    SumOfAreas(values, width, height, total);
    WholeBox(width, height, total);
    hide Sum, Areas;
    ghost var box := Rect(0.0, 0.0, width, height);
    var left := Rect(0.0, 0.0, width, height);
    out := [];
    HitsAlone(box);
    var i := 0;
    NoAreas(areas[..0]);
    NothingSquarified(areas, box);
    assert areas[0..] == areas;
    while i < |areas|
      invariant i <= |areas| && left.w >= 0.0 && left.h >= 0.0
      invariant HasAreas(out, areas[..i])
      invariant Tiles(out + [left], box)
      invariant Holds(left.w, left.h, Sum(areas[i..]))
      invariant SquarifiedAfter(out, areas, i, left, box)
      decreases |areas| - i
    {
      PositiveSum(areas[i..]);
      PositiveSides(left.w, left.h, Sum(areas[i..]));
      var row, j := GrowRow(areas, i, Min(left.w, left.h), left);
      SumSplit(areas, i, j);
      PositiveSum(areas[j..]);
      var tiles, rest;
      ghost var strip;
      tiles, rest, strip := LayShorterSide(row, left, Sum(areas[i..]));
      LayStrip(out, left, strip, tiles, rest, box);
      HasAreasConcat(out, tiles, areas, i, j);
      RowSquarified(out, tiles, areas, i, j, left, rest, box);
      out := out + tiles;
      left := rest;
      i := j;
    }
    AllSquarified(out, areas, left, box);
    NothingLeft(areas);
    EmptySide(left.w, left.h);
    LastTile(out, left, box);
    assert areas[..|areas|] == areas;
  }

  lemma NothingLeft(v: Vec)
    ensures Sum(v[|v|..]) == 0.0
  {
  }

  lemma NoAreas(areas: Vec)
    requires areas == []
    ensures HasAreas([], areas)
  {
  }

  lemma WholeBox(width: real, height: real, total: real)
    requires total > 0.0
    ensures Holds(width, height, Share(total, width, height, total))
  {
    var q := total * width * height / total;
    assert q * total == width * height * total;
    assert (q - width * height) * total == 0.0;
  }

  /** The sum of the positive values. */
  function PositiveTotal(values: Vec): real {
    if |values| == 0 then 0.0
    else PositiveTotal(values[..|values| - 1]) + Max(values[|values| - 1], 0.0)
  }

  lemma {:induction false} PositiveTotalOfPositive(values: Vec)
    requires AllPositive(values)
    ensures PositiveTotal(values) == Sum(values)
  {
    if |values| > 0 {
      PositiveTotalOfPositive(values[..|values| - 1]);
    }
  }

  /** The positions below `n` of the positive values. */
  function Positive(values: Vec, n: nat): (at: seq<nat>)
    requires n <= |values|
    ensures |at| <= n
    ensures forall k :: 0 <= k < |at| ==> at[k] < n
  {
    if n == 0 then [] else
    Positive(values, n - 1) + if values[n - 1] > 0.0 then [n - 1] else []
  }

  lemma {:induction false} PositiveAt(values: Vec, n: nat, i: nat)
    requires n <= |values|
    ensures i in Positive(values, n) <==> i < n && values[i] > 0.0
  {
    if n > 0 {
      PositiveAt(values, n - 1, i);
    }
  }

  lemma {:induction false} AllArePositive(values: Vec, n: nat)
    requires n <= |values|
    ensures |Positive(values, n)| == n ==> forall i :: 0 <= i < n ==> values[i] > 0.0
  {
    if n > 0 {
      AllArePositive(values, n - 1);
    }
  }

  /** They are exactly the positive values' positions, in order. */
  lemma {:induction false} PositiveIsComplete(values: Vec, n: nat)
    requires n <= |values|
    ensures forall i :: 0 <= i < n ==> (i in Positive(values, n) <==> values[i] > 0.0)
    ensures |Positive(values, n)| == n ==> forall i :: 0 <= i < n ==> values[i] > 0.0
  {
    hide Positive;
    AllArePositive(values, n);
    forall i: nat | i < n
      ensures i in Positive(values, n) <==> values[i] > 0.0
    {
      PositiveAt(values, n, i);
    }
  }

  lemma {:induction false} PositiveAscends(values: Vec, n: nat, k: nat, l: nat)
    requires n <= |values| && k < l < |Positive(values, n)|
    ensures Positive(values, n)[k] < Positive(values, n)[l]
  {
    if l < |Positive(values, n - 1)| {
      PositiveAscends(values, n - 1, k, l);
    }
  }

  function Pick(values: Vec, at: seq<nat>): (v: Vec)
    requires forall k :: 0 <= k < |at| ==> at[k] < |values|
    ensures |v| == |at|
  {
    seq(|at|, k requires 0 <= k < |at| => values[at[k]])
  }

  lemma {:induction false} PickedTotal(values: Vec, n: nat)
    requires n <= |values|
    ensures Sum(Pick(values, Positive(values, n))) == PositiveTotal(values[..n])
  {
    if n > 0 {
      PickedTotal(values, n - 1);
      TotalStep(values, n);
      var at := Positive(values, n - 1);
      if values[n - 1] > 0.0 {
        assert Pick(values, at + [n - 1]) == Pick(values, at) + [values[n - 1]];
        SumAppend(Pick(values, at), values[n - 1]);
      } else {
        assert Positive(values, n) == at;
      }
    }
  }

  lemma TotalStep(values: Vec, n: nat)
    requires 0 < n <= |values|
    ensures PositiveTotal(values[..n]) == PositiveTotal(values[..n - 1]) + Max(values[n - 1], 0.0)
  {
    assert values[..n][..n - 1] == values[..n - 1];
  }

  /** What the layout promises for one box: no box for a value that is not positive, else its share of
      the area; and all of them together tile the box exactly. */
  ghost predicate Layout(out: seq<Rect>, values: Vec, width: real, height: real) {
    && |out| == |values|
    && (forall k :: 0 <= k < |values| && values[k] <= 0.0 ==> out[k] == NO_BOX)
    && (width <= 0.0 || height <= 0.0 || PositiveTotal(values) <= 0.0 ==> forall k :: 0 <= k < |values| ==> out[k] == NO_BOX)
    && (width > 0.0 && height > 0.0 && PositiveTotal(values) > 0.0 ==>
         && Tiles(out, Rect(0.0, 0.0, width, height))
         && forall k :: 0 <= k < |values| && values[k] > 0.0 ==>
              out[k].w > 0.0 && out[k].h > 0.0
              && Holds(out[k].w, out[k].h, Share(values[k], width, height, PositiveTotal(values))))
  }

  lemma {:induction false} HitsNothing(n: nat, px: real, py: real)
    ensures Hits(seq(n, _ => NO_BOX), px, py) == 0
  {
    if n > 0 {
      assert seq(n, _ => NO_BOX)[..n - 1] == seq(n - 1, _ => NO_BOX);
      HitsNothing(n - 1, px, py);
    }
  }

  /** The same points are covered as often. */
  ghost predicate SameHits(a: seq<Rect>, b: seq<Rect>) {
    forall px, py :: Hits(a, px, py) == Hits(b, px, py)
  }

  lemma NothingPlaced(n: nat)
    ensures SameHits(seq(n, _ => NO_BOX), [])
  {
    forall px, py
      ensures Hits(seq(n, _ => NO_BOX), px, py) == Hits([], px, py)
    {
      HitsNothing(n, px, py);
    }
  }

  lemma PlaceTile(all: seq<Rect>, done: seq<Rect>, i: nat, r: Rect)
    requires i < |all| && all[i] == NO_BOX && SameHits(all, done)
    ensures SameHits(all[i := r], done + [r])
  {
    forall px, py
      ensures Hits(all[i := r], px, py) == Hits(done + [r], px, py)
    {
      HitsUpdate(all, i, r, px, py);
      HitsConcat(done, [r], px, py);
      HitsOne(r, px, py);
    }
  }

  lemma TilesBySameHits(all: seq<Rect>, done: seq<Rect>, box: Rect)
    requires SameHits(all, done) && Tiles(done, box)
    ensures Tiles(all, box)
  {
    forall px, py
      ensures Hits(all, px, py) == Hit(box, px, py)
    {
      assert Hits(all, px, py) == Hits(done, px, py);
    }
  }

  /** A tile for every positive value, nothing elsewhere. */
  method Scatter(rects: seq<Rect>, at: seq<nat>, n: nat) returns (out: seq<Rect>)
    requires |rects| == |at|
    requires forall k :: 0 <= k < |at| ==> at[k] < n
    requires forall k, l :: 0 <= k < l < |at| ==> at[k] < at[l]
    ensures |out| == n && SameHits(out, rects)
    ensures forall k :: 0 <= k < |at| ==> out[at[k]] == rects[k]
    ensures forall i :: 0 <= i < n && i !in at ==> out[i] == NO_BOX
  {
    hide SameHits;
    out := seq(n, _ => NO_BOX);
    NothingPlaced(n);
    assert rects[..0] == [];
    for k := 0 to |at|
      invariant |out| == n && SameHits(out, rects[..k])
      invariant forall l :: 0 <= l < k ==> out[at[l]] == rects[l]
      invariant forall i :: 0 <= i < n && i !in at[..k] ==> out[i] == NO_BOX
    {
      assert at[k] !in at[..k];
      PlaceTile(out, rects[..k], at[k], rects[k]);
      assert rects[..k + 1] == rects[..k] + [rects[k]];
      assert at[..k + 1] == at[..k] + [at[k]];
      out := out[at[k] := rects[k]];
    }
    assert at[..|at|] == at && rects[..|at|] == rects;
  }

  lemma ScatterLayout(out: seq<Rect>, rects: seq<Rect>, values: Vec, at: seq<nat>, width: real, height: real)
    requires |out| == |values| && |rects| == |at| && SameHits(out, rects)
    requires forall k :: 0 <= k < |at| ==> at[k] < |values| && values[at[k]] > 0.0 && out[at[k]] == rects[k]
    requires forall i :: 0 <= i < |values| && i !in at ==> values[i] <= 0.0 && out[i] == NO_BOX
    requires Layout(rects, Pick(values, at), width, height)
    requires PositiveTotal(Pick(values, at)) == PositiveTotal(values)
    ensures Layout(out, values, width, height)
  {
    hide Tiles, Holds, Share, PositiveTotal, Hits, SameHits;
    if width > 0.0 && height > 0.0 && PositiveTotal(values) > 0.0 {
      TilesBySameHits(out, rects, Rect(0.0, 0.0, width, height));
    }
    var picked := Pick(values, at);
    forall i | 0 <= i < |values| && i in at
      ensures exists k :: 0 <= k < |at| && at[k] == i && picked[k] == values[i] && out[i] == rects[k]
    {
      var k :| 0 <= k < |at| && at[k] == i;
    }
  }

  /** The boxes of the positive values, in order. */
  function PositiveBoxes(out: seq<Rect>, values: Vec): (rects: seq<Rect>)
    requires |out| == |values|
    ensures |rects| == |Positive(values, |values|)|
  {
    var at := Positive(values, |values|);
    seq(|at|, k requires 0 <= k < |at| => out[at[k]])
  }

  /** Where there is something to draw, the boxes of the positive values are squarified into the whole box, each
      with its share of it. */
  ghost predicate SquarifiedLayout(out: seq<Rect>, values: Vec, width: real, height: real) {
    |out| == |values| && (width > 0.0 && height > 0.0 && PositiveTotal(values) > 0.0 ==>
      var areas := Areas(Pick(values, Positive(values, |values|)), width, height, PositiveTotal(values));
      AllPositive(areas) && Squarified(PositiveBoxes(out, values), areas, 0, Rect(0.0, 0.0, width, height)))
  }

  lemma {:induction false} PositiveOfPositive(values: Vec, n: nat)
    requires AllPositive(values) && n <= |values|
    ensures |Positive(values, n)| == n && forall k :: 0 <= k < n ==> Positive(values, n)[k] == k
  {
    if n > 0 {
      PositiveOfPositive(values, n - 1);
    }
  }

  lemma PickedArePositive(values: Vec)
    ensures AllPositive(Pick(values, Positive(values, |values|)))
  {
    PositiveIsComplete(values, |values|);
    var at := Positive(values, |values|);
    forall k | 0 <= k < |at|
      ensures values[at[k]] > 0.0
    {
      assert at[k] in at;
    }
  }

  lemma AllAreSquarified(out: seq<Rect>, values: Vec, width: real, height: real)
    requires AllPositive(values) && |out| == |values| && Sum(values) == PositiveTotal(values) && Sum(values) > 0.0
    requires AllPositive(Areas(values, width, height, Sum(values)))
    requires Squarified(out, Areas(values, width, height, Sum(values)), 0, Rect(0.0, 0.0, width, height))
    ensures SquarifiedLayout(out, values, width, height)
  {
    PositiveOfPositive(values, |values|);
    assert Pick(values, Positive(values, |values|)) == values;
    assert PositiveBoxes(out, values) == out;
    hide Squarified, Areas, PositiveTotal, Sum;
  }

  lemma NothingToSquarify(out: seq<Rect>, values: Vec, width: real, height: real)
    requires |out| == |values| && (|values| == 0 || width <= 0.0 || height <= 0.0)
    ensures SquarifiedLayout(out, values, width, height)
  {
  }

  lemma ScatterSquarified(out: seq<Rect>, rects: seq<Rect>, values: Vec, width: real, height: real)
    requires |out| == |values|
    requires var at := Positive(values, |values|);
      |rects| == |at| && (forall k :: 0 <= k < |at| ==> out[at[k]] == rects[k])
      && SquarifiedLayout(rects, Pick(values, at), width, height) && PositiveTotal(Pick(values, at)) == PositiveTotal(values)
    ensures SquarifiedLayout(out, values, width, height)
  {
    var at := Positive(values, |values|);
    var picked := Pick(values, at);
    PickedArePositive(values);
    PositiveOfPositive(picked, |picked|);
    assert Pick(picked, Positive(picked, |picked|)) == picked;
    assert PositiveBoxes(rects, picked) == rects;
    assert PositiveBoxes(out, values) == rects;
    hide Squarified, Areas, PositiveTotal, Positive, Pick;
  }

  method Squarify(values: Vec, width: real, height: real) returns (out: seq<Rect>)
    ensures Layout(out, values, width, height) && SquarifiedLayout(out, values, width, height)
    decreases |values|
  {
    hide Layout, SquarifiedLayout, PositiveTotal, SameHits, Positive, Sum, Tiles;
    var positive := Positive(values, |values|);
    PositiveIsComplete(values, |values|);
    forall k, l | 0 <= k < l < |positive|
      ensures positive[k] < positive[l]
    {
      PositiveAscends(values, |values|, k, l);
    }
    if |positive| < |values| {
      var picked := Pick(values, positive);
      var rects := Squarify(picked, width, height);
      assert |rects| == |picked| by { LayoutLength(rects, picked, width, height); }
      PickedTotal(values, |values|);
      assert values[..|values|] == values;
      PositiveTotalOfPositive(picked);
      out := Scatter(rects, positive, |values|);
      ScatterLayout(out, rects, values, positive, width, height);
      ScatterSquarified(out, rects, values, width, height);
      return;
    }
    PositiveSum(values);
    PositiveTotalOfPositive(values);
    if |values| == 0 || width <= 0.0 || height <= 0.0 {
      out := seq(|values|, _ => NO_BOX);
      NoBoxes(values, width, height);
      NothingToSquarify(out, values, width, height);
      return;
    }
    out := LayOut(values, width, height, Sum(values));
    AreasToLayout(out, values, width, height);
    AllAreSquarified(out, values, width, height);
  }

  lemma LayoutLength(out: seq<Rect>, values: Vec, width: real, height: real)
    requires Layout(out, values, width, height)
    ensures |out| == |values|
  {
  }

  lemma NoBoxes(values: Vec, width: real, height: real)
    requires |values| == 0 || width <= 0.0 || height <= 0.0
    ensures Layout(seq(|values|, _ => NO_BOX), values, width, height)
  {
  }

  lemma AreasToLayout(out: seq<Rect>, values: Vec, width: real, height: real)
    requires AllPositive(values) && Sum(values) > 0.0 && Sum(values) == PositiveTotal(values) && width > 0.0 && height > 0.0
    requires HasAreas(out, Areas(values, width, height, Sum(values))) && Tiles(out, Rect(0.0, 0.0, width, height))
    ensures Layout(out, values, width, height)
  {
    hide Tiles, Holds, Share, PositiveTotal, Sum;
  }

  /** Every point of the box lies in the box of exactly one value, and that value is positive. */
  lemma EveryPointHasOneTile(out: seq<Rect>, values: Vec, width: real, height: real, px: real, py: real)
    returns (k: nat)
    requires Layout(out, values, width, height) && PositiveTotal(values) > 0.0
    requires Rect(0.0, 0.0, width, height).Covers(px, py)
    ensures k < |values| && values[k] > 0.0 && out[k].Covers(px, py)
    ensures forall i :: 0 <= i < |values| && out[i].Covers(px, py) ==> i == k
  {
    k := ExactlyOne(out, px, py);
  }

  /** No box reaches outside. */
  lemma NoTileOutside(out: seq<Rect>, box: Rect, k: nat, px: real, py: real)
    requires Tiles(out, box) && k < |out| && out[k].Covers(px, py)
    ensures box.Covers(px, py)
  {
    if Hits(out, px, py) == 0 {
      NoHit(out, px, py);
    }
  }
}
