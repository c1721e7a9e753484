/** The book map: asset classes tile the page, and the lines of a class tile its box. */
module BookMap {
  import opened Vectors
  import opened Treemap

  /** The height of a class box's header strip. */
  const GROUP_HEAD := 20.0

  /** One asset class: the values of its lines, and whether it is the cash tile. */
  datatype Group = Group(values: Vec, cash: bool)

  datatype Size = Size(w: real, h: real) {
    predicate Positive() {
      w > 0.0 && h > 0.0
    }

    function Box(): Rect {
      Rect(0.0, 0.0, w, h)
    }
  }

  const HUNDRED := Size(100.0, 100.0)

  function Pct(r: Rect, box: Size): Rect
    requires box.Positive()
  {
    Rect(100.0 * r.x / box.w, 100.0 * r.y / box.h, 100.0 * r.w / box.w, 100.0 * r.h / box.h)
  }

  function PctAll(rects: seq<Rect>, box: Size): (out: seq<Rect>)
    requires box.Positive()
    ensures |out| == |rects|
  {
    seq(|rects|, k requires 0 <= k < |rects| => Pct(rects[k], box))
  }

  /** One axis of a half-open box, before and after scaling. */
  lemma ScaledAxis(a: real, len: real, p: real, full: real)
    requires full > 0.0
    ensures 100.0 * a / full <= p < 100.0 * a / full + 100.0 * len / full <==>
            a <= p * full / 100.0 < a + len
  {
    var s, t, q := 100.0 * a / full, 100.0 * len / full, p * full / 100.0;
    assert s * full == 100.0 * a && t * full == 100.0 * len && 100.0 * q == p * full;
    ScaledOrder(s, p, full);
    assert (s + t) * full == s * full + t * full;
    ScaledOrder(s + t, p, full);
  }

  lemma ScaledOrder(a: real, b: real, c: real)
    requires c > 0.0
    ensures a <= b <==> a * c <= b * c
  {
    if a <= b {
      assert (b - a) * c >= 0.0;
    } else {
      assert (a - b) * c > 0.0;
    }
  }

  lemma PctCovers(r: Rect, box: Size, px: real, py: real)
    requires box.Positive()
    ensures Pct(r, box).Covers(px, py) <==> r.Covers(px * box.w / 100.0, py * box.h / 100.0)
  {
    ScaledAxis(r.x, r.w, px, box.w);
    ScaledAxis(r.y, r.h, py, box.h);
  }

  lemma {:induction false} PctHits(rects: seq<Rect>, box: Size, px: real, py: real)
    requires box.Positive()
    ensures Hits(PctAll(rects, box), px, py) == Hits(rects, px * box.w / 100.0, py * box.h / 100.0)
  {
    hide Rect.Covers, Pct;
    if |rects| > 0 {
      var n := |rects| - 1;
      assert PctAll(rects, box)[..n] == PctAll(rects[..n], box);
      PctHits(rects[..n], box, px, py);
      PctCovers(rects[n], box, px, py);
    }
  }

  /** Percentages of a box keep a tiling: the boxes tile the hundred by hundred square. */
  lemma PctKeepsTiling(rects: seq<Rect>, box: Size)
    requires box.Positive() && Tiles(rects, box.Box())
    ensures Tiles(PctAll(rects, box), HUNDRED.Box())
  {
    WholeBoxPct(box);
    forall px, py
      ensures Hits(PctAll(rects, box), px, py) == Hit(HUNDRED.Box(), px, py)
    {
      hide Rect.Covers;
      PctHits(rects, box, px, py);
      PctCovers(box.Box(), box, px, py);
    }
  }

  lemma WholeBoxPct(box: Size)
    requires box.Positive()
    ensures Pct(box.Box(), box) == HUNDRED.Box()
  {
  }

  /** The share of a hundred by hundred square: ten thousand times value over total. */
  predicate PctShare(r: Rect, value: real, total: real) {
    r.w * r.h * total == 10000.0 * value
  }

  lemma ShareAsPct(r: Rect, value: real, total: real, box: Size)
    requires box.Positive() && total > 0.0 && Holds(r.w, r.h, Share(value, box.w, box.h, total))
    ensures PctShare(Pct(r, box), value, total)
  {
    var share := Share(value, box.w, box.h, total);
    assert share * total == value * box.w * box.h;
    var a, b := 100.0 * r.w / box.w, 100.0 * r.h / box.h;
    assert a * box.w == 100.0 * r.w && b * box.h == 100.0 * r.h;
    var full := box.w * box.h;
    assert full > 0.0;
    assert (a * b) * full == (a * box.w) * (b * box.h);
    assert (a * box.w) * (b * box.h) == 10000.0 * (r.w * r.h);
    assert ((a * b) * total) * full == ((a * b) * full) * total;
    assert ((a * b) * total) * full == 10000.0 * (share * total);
    assert value * box.w * box.h == value * full;
    assert ((a * b) * total - 10000.0 * value) * full == 0.0;
    NoFactor((a * b) * total - 10000.0 * value, full);
  }

  lemma NoFactor(a: real, b: real)
    requires a * b == 0.0 && b != 0.0
    ensures a == 0.0
  {
  }

  /** Percent boxes of positive values: they tile the square and each has its value's share of it. */
  ghost predicate PctLayout(out: seq<Rect>, values: Vec) {
    && |out| == |values|
    && Tiles(out, HUNDRED.Box())
    && forall k :: 0 <= k < |values| ==> out[k].w > 0.0 && out[k].h > 0.0 && PctShare(out[k], values[k], Sum(values))
  }

  lemma LayoutToPct(rects: seq<Rect>, values: Vec, box: Size)
    requires box.Positive() && AllPositive(values) && |values| > 0 && Layout(rects, values, box.w, box.h)
    ensures PctLayout(PctAll(rects, box), values)
    ensures forall k :: 0 <= k < |values| ==> rects[k].w > 0.0 && rects[k].h > 0.0
  {
    PositiveTotalOfPositive(values);
    PositiveSum(values);
    PctKeepsTiling(rects, box);
    forall k | 0 <= k < |values|
      ensures var r := Pct(rects[k], box); r.w > 0.0 && r.h > 0.0 && PctShare(r, values[k], Sum(values))
    {
      hide Tiles, Share, Holds, PctShare;
      PositiveQuotient(100.0 * rects[k].w, box.w);
      PositiveQuotient(100.0 * rects[k].h, box.h);
      ShareAsPct(rects[k], values[k], Sum(values), box);
    }
  }

  function Totals(groups: seq<Group>): (v: Vec)
    ensures |v| == |groups|
  {
    seq(|groups|, g requires 0 <= g < |groups| => Sum(groups[g].values))
  }

  /** Every class holds at least one line and every line has a positive value: what the map draws. */
  predicate Drawable(groups: seq<Group>) {
    |groups| > 0 && forall g :: 0 <= g < |groups| ==> |groups[g].values| > 0 && AllPositive(groups[g].values)
  }

  /** A class shows its name where its box is tall and wide enough in every layout. */
  predicate HasHead(group: Group, rects: seq<seq<Rect>>, g: nat)
    requires forall l :: 0 <= l < |rects| ==> g < |rects[l]|
  {
    !group.cash && forall l :: 0 <= l < |rects| ==>
      rects[l][g].h >= 2.2 * GROUP_HEAD && rects[l][g].w >= 44.0
  }

  /** The box left to a class's lines: below the header, never lower than one unit. */
  function Inner(rect: Rect, head: bool): Size {
    Size(rect.w, Max(rect.h - if head then GROUP_HEAD else 0.0, 1.0))
  }

  /** The lines of one class, in pixels and in percent: squarified into the class box less a header strip of
      twenty pixels where it has one, and never less than one pixel high. */
  ghost predicate LinesLaid(rect: Rect, head: bool, values: Vec, px: seq<Rect>, pct: seq<Rect>) {
    var free := if head then rect.h - 20.0 else rect.h;
    var inner := Size(rect.w, if free > 1.0 then free else 1.0);
    && inner.Positive()
    && Layout(px, values, inner.w, inner.h) && SquarifiedLayout(px, values, inner.w, inner.h)
    && pct == PctAll(px, inner) && PctLayout(pct, values)
  }

  /** The class boxes of one page layout, in pixels and in percent. */
  ghost predicate ClassesLaid(box: Size, totals: Vec, px: seq<Rect>, pct: seq<Rect>) {
    && box.Positive() && |px| == |totals| && (forall g :: 0 <= g < |px| ==> px[g].w > 0.0)
    && Layout(px, totals, box.w, box.h) && SquarifiedLayout(px, totals, box.w, box.h)
    && pct == PctAll(px, box) && PctLayout(pct, totals)
  }

  /** The two-level layout: in every page layout the classes tile the page and the lines of each class tile
      the box below its header, each in proportion to its value. `rects` are the class boxes in pixels and
      `heads` the classes with a header strip: none for cash, else where every layout has room for one. */
  method LayOutBook(groups: seq<Group>, boxes: seq<Size>)
    returns (rects: seq<seq<Rect>>, heads: seq<bool>, groupPct: seq<seq<Rect>>, tilePct: seq<seq<seq<Rect>>>,
             ghost tiles: seq<seq<seq<Rect>>>)
    requires Drawable(groups) && forall l :: 0 <= l < |boxes| ==> boxes[l].Positive()
    ensures |rects| == |groupPct| == |tilePct| == |tiles| == |boxes| && |heads| == |groups|
    ensures forall l :: 0 <= l < |boxes| ==>
      ClassesLaid(boxes[l], Totals(groups), rects[l], groupPct[l]) && |rects[l]| == |tilePct[l]| == |tiles[l]| == |groups|
    ensures forall g :: 0 <= g < |groups| ==>
      (heads[g] <==> !groups[g].cash && forall l :: 0 <= l < |boxes| ==> rects[l][g].h >= 44.0 && rects[l][g].w >= 44.0)
    ensures forall l, g :: 0 <= l < |boxes| && 0 <= g < |groups| ==>
      LinesLaid(rects[l][g], heads[g], groups[g].values, tiles[l][g], tilePct[l][g])
  {
    hide Sum, HasHead, LinesLaid, ClassesLaid, Size.Positive;
    var totals := Totals(groups);
    assert AllPositive(totals) by {
      forall g | 0 <= g < |groups| ensures totals[g] > 0.0 { PositiveSum(groups[g].values); }
    }
    rects, groupPct := [], [];
    for l := 0 to |boxes|
      invariant |rects| == |groupPct| == l
      invariant forall k :: 0 <= k < l ==> ClassesLaid(boxes[k], totals, rects[k], groupPct[k]) && |rects[k]| == |groups|
      invariant forall k, g :: 0 <= k < l && 0 <= g < |groups| ==> rects[k][g].w > 0.0
    {
      var r := Squarify(totals, boxes[l].w, boxes[l].h);
      LayoutLength(r, totals, boxes[l].w, boxes[l].h);
      LayoutToPct(r, totals, boxes[l]);
      ClassesAreLaid(boxes[l], totals, r);
      rects := rects + [r];
      groupPct := groupPct + [PctAll(r, boxes[l])];
    }
    heads := seq(|groups|, g requires 0 <= g < |groups| => HasHead(groups[g], rects, g));
    HeadsWhereRoom(groups, rects, heads);
    tilePct, tiles := [], [];
    for l := 0 to |boxes|
      invariant |tilePct| == |tiles| == l
      invariant forall k :: 0 <= k < l ==> |tilePct[k]| == |tiles[k]| == |groups|
      invariant forall k, g :: 0 <= k < l && 0 <= g < |groups| ==>
        LinesLaid(rects[k][g], heads[g], groups[g].values, tiles[k][g], tilePct[k][g])
    {
      var pct, px := LayOutLines(groups, rects[l], heads);
      tilePct, tiles := tilePct + [pct], tiles + [px];
    }
  }

  lemma ClassesAreLaid(box: Size, totals: Vec, px: seq<Rect>)
    requires box.Positive() && |px| == |totals| && forall g :: 0 <= g < |px| ==> px[g].w > 0.0
    requires Layout(px, totals, box.w, box.h) && SquarifiedLayout(px, totals, box.w, box.h) && PctLayout(PctAll(px, box), totals)
    ensures ClassesLaid(box, totals, px, PctAll(px, box))
  {
    hide Layout, SquarifiedLayout, PctLayout, PctAll;
  }

  lemma HeadsWhereRoom(groups: seq<Group>, rects: seq<seq<Rect>>, heads: seq<bool>)
    requires |heads| == |groups| && forall l :: 0 <= l < |rects| ==> |rects[l]| == |groups|
    requires forall g :: 0 <= g < |groups| ==> heads[g] == HasHead(groups[g], rects, g)
    ensures forall g :: 0 <= g < |groups| ==>
      (heads[g] <==> !groups[g].cash && forall l :: 0 <= l < |rects| ==> rects[l][g].h >= 44.0 && rects[l][g].w >= 44.0)
  {
  }

  /** The inner loop: the lines of each class in the box its header leaves. */
  method LayOutLines(groups: seq<Group>, rects: seq<Rect>, heads: seq<bool>)
    returns (tiles: seq<seq<Rect>>, ghost px: seq<seq<Rect>>)
    requires Drawable(groups) && |rects| == |heads| == |groups| && forall g :: 0 <= g < |groups| ==> rects[g].w > 0.0
    ensures |tiles| == |px| == |groups|
    ensures forall g :: 0 <= g < |groups| ==> LinesLaid(rects[g], heads[g], groups[g].values, px[g], tiles[g])
  {
    hide Sum, Inner, LinesLaid;
    tiles, px := [], [];
    for g := 0 to |groups|
      invariant |tiles| == |px| == g
      invariant forall k :: 0 <= k < g ==> LinesLaid(rects[k], heads[k], groups[k].values, px[k], tiles[k])
    {
      var inner := Inner(rects[g], heads[g]);
      InnerIsPositive(rects[g], heads[g]);
      var r := Squarify(groups[g].values, inner.w, inner.h);
      LayoutToPct(r, groups[g].values, inner);
      LinesAreLaid(rects[g], heads[g], groups[g].values, r);
      tiles, px := tiles + [PctAll(r, inner)], px + [r];
    }
  }

  lemma LinesAreLaid(rect: Rect, head: bool, values: Vec, px: seq<Rect>)
    requires rect.w > 0.0
    requires var inner := Inner(rect, head);
      && inner.Positive() && Layout(px, values, inner.w, inner.h) && SquarifiedLayout(px, values, inner.w, inner.h)
      && PctLayout(PctAll(px, inner), values)
    ensures LinesLaid(rect, head, values, px, PctAll(px, Inner(rect, head)))
  {
    hide Layout, SquarifiedLayout, PctLayout, PctAll;
  }

  lemma InnerIsPositive(rect: Rect, head: bool)
    requires rect.w > 0.0
    ensures Inner(rect, head).Positive()
  {
  }

  /** The area on the page of a tile given in percent of its class's inner box. */
  function PageArea(tile: Rect, inner: Size): real {
    (tile.w * inner.w / 100.0) * (tile.h * inner.h / 100.0)
  }

  /** The area of a line on the page. It is the line's share of the page, value over the whole book, exactly
      when the box left to its class's lines is as high as the class box. */
  lemma LineShareOfPage(rect: Rect, tile: Rect, value: real, groupTotal: real, total: real, box: Size, head: bool)
    requires box.Positive() && rect.h > 0.0 && value > 0.0 && groupTotal > 0.0 && total > 0.0
    requires Holds(rect.w, rect.h, Share(groupTotal, box.w, box.h, total)) && PctShare(tile, value, groupTotal)
    ensures var inner := Inner(rect, head);
      && PageArea(tile, inner) * total * rect.h == value * (box.w * box.h) * inner.h
      && (PageArea(tile, inner) == Share(value, box.w, box.h, total) <==> inner.h == rect.h)
  {
    hide PageArea, Share, Holds, PctShare;
    var inner := Inner(rect, head);
    PageAreaIs(tile, inner);
    AreaOfClass(rect, groupTotal, box, total);
    AreaOfTile(tile, value, groupTotal);
    ShareOfFull(value, box, total);
    WholePage(value, box);
    hide Inner, Size.Positive;
    AreaOfLine(PageArea(tile, inner), tile.w * tile.h, rect.w, rect.h, inner.h, groupTotal, total, box.w * box.h, value);
    ShareOfLine(PageArea(tile, inner), rect.h, inner.h, total, value * (box.w * box.h));
  }

  lemma AreaOfTile(tile: Rect, value: real, groupTotal: real)
    requires PctShare(tile, value, groupTotal)
    ensures tile.w * tile.h * groupTotal == 10000.0 * value
  {
  }

  lemma WholePage(value: real, box: Size)
    requires box.Positive() && value > 0.0
    ensures value * (box.w * box.h) > 0.0
  {
    assert box.w * box.h > 0.0;
  }

  lemma PageAreaIs(tile: Rect, inner: Size)
    ensures 10000.0 * PageArea(tile, inner) == tile.w * tile.h * (inner.w * inner.h)
  {
    assert (tile.w * inner.w) * (tile.h * inner.h) == tile.w * tile.h * (inner.w * inner.h);
  }

  lemma AreaOfClass(rect: Rect, groupTotal: real, box: Size, total: real)
    requires total != 0.0 && Holds(rect.w, rect.h, Share(groupTotal, box.w, box.h, total))
    ensures rect.w * rect.h * total == groupTotal * (box.w * box.h)
  {
    assert groupTotal * box.w * box.h == groupTotal * (box.w * box.h);
  }

  lemma ShareOfFull(value: real, box: Size, total: real)
    requires total != 0.0
    ensures Share(value, box.w, box.h, total) == value * (box.w * box.h) / total
  {
    assert value * box.w * box.h == value * (box.w * box.h);
  }

  lemma AreaOfLine(area: real, t: real, w: real, h: real, inner: real, groupTotal: real, total: real, full: real, value: real)
    requires 10000.0 * area == t * (w * inner) && w * h * total == groupTotal * full && t * groupTotal == 10000.0 * value
    ensures area * total * h == value * full * inner
  {
    assert 10000.0 * (area * total * h) == (10000.0 * area) * (total * h);
    assert (t * (w * inner)) * (total * h) == (t * inner) * (w * h * total);
    assert (t * inner) * (groupTotal * full) == (t * groupTotal) * (full * inner);
    assert (10000.0 * value) * (full * inner) == 10000.0 * (value * full * inner);
  }

  lemma ShareOfLine(area: real, h: real, inner: real, total: real, v: real)
    requires h > 0.0 && total > 0.0 && v > 0.0 && area * total * h == v * inner
    ensures area == v / total <==> inner == h
  {
    var q := v / total;
    assert q * total == v;
    if area == q {
      assert v * h == v * inner;
      assert v * (h - inner) == 0.0;
      NoFactor(h - inner, v);
    } else if inner == h {
      assert (area * total - v) * h == 0.0;
      NoFactor(area * total - v, h);
      assert (area - q) * total == 0.0;
      NoFactor(area - q, total);
    }
  }

  /** The lines of a class fill its box exactly where it shows no header and is at least one unit high. */
  lemma InnerIsWhole(group: Group, rects: seq<seq<Rect>>, g: nat, l: nat)
    requires l < |rects| && forall k :: 0 <= k < |rects| ==> g < |rects[k]|
    ensures Inner(rects[l][g], HasHead(group, rects, g)).h == rects[l][g].h <==>
            !HasHead(group, rects, g) && rects[l][g].h >= 1.0
  {
  }
}
