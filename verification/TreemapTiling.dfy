/** The layout is an exact tiling, each item has its share, and the greedy choice optimizes the ratio it claims to. */
module TreemapTiling {
  import opened TreemapGeometry
  import opened Treemap

  /** How many rectangles a point lies in. */
  function Cover(rects: seq<TreemapRect>, px: real, py: real): nat {
    if rects == [] then 0
    else Cover(rects[..|rects| - 1], px, py) + if Contains(rects[|rects| - 1].rect, px, py) then 1 else 0
  }

  /** Every point of the container lies in exactly one rectangle, every other point in none. */
  ghost predicate Tiles(rects: seq<TreemapRect>, c: Rect) {
    forall px, py :: Cover(rects, px, py) == if Contains(c, px, py) then 1 else 0
  }

  lemma {:induction false} CoverAppend(a: seq<TreemapRect>, b: seq<TreemapRect>, px: real, py: real)
    ensures Cover(a + b, px, py) == Cover(a, px, py) + Cover(b, px, py)
  {
    if b == [] {
      assert a + b == a;
    } else {
      var n := |b| - 1;
      CoverAppend(a, b[..n], px, py);
      assert (a + b)[..|a + b| - 1] == a + b[..n];
    }
  }

  /** The part of the strip that the first pieces take up. */
  function StripUpTo(c: Rect, vertical: bool, thick: real, len: real): Rect {
    Piece(c, vertical, thick, 0.0, len)
  }

  lemma {:induction false} RowCovers(
    items: seq<Item>, row: seq<real>, c: Rect, vertical: bool, thick: real, n: nat, px: real, py: real)
    requires n <= |row| == |items| && thick > 0.0 && AllPositive(row)
    ensures Offset(row, thick, n) >= 0.0
    ensures Cover(RowRects(items, row, c, vertical, thick, n), px, py)
         == if Contains(StripUpTo(c, vertical, thick, Offset(row, thick, n)), px, py) then 1 else 0
  {
    if n > 0 {
      RowCovers(items, row, c, vertical, thick, n - 1, px, py);
      QuotientPositive(row[n - 1], thick);
      var rects := RowRects(items, row, c, vertical, thick, n);
      assert rects[..|rects| - 1] == RowRects(items, row, c, vertical, thick, n - 1);
    }
  }

  lemma SplitContains(c: Rect, vertical: bool, thick: real, px: real, py: real)
    requires thick > 0.0 && RestOf(c, vertical, thick).w >= 0.0 && RestOf(c, vertical, thick).h >= 0.0
    ensures Contains(c, px, py)
       <==> (Contains(StripOf(c, vertical, thick), px, py) || Contains(RestOf(c, vertical, thick), px, py))
    ensures !(Contains(StripOf(c, vertical, thick), px, py) && Contains(RestOf(c, vertical, thick), px, py))
  {
  }

  lemma {:induction false} CoversOnce(items: seq<Item>, areas: seq<real>, c: Rect, px: real, py: real)
    requires |items| == |areas| && Fits(areas, c)
    ensures Cover(Squarified(items, areas, c), px, py) == if Contains(c, px, py) then 1 else 0
    decreases |items|
  {
    if items == [] {
      Degenerate(c, px, py);
    } else if |items| == 1 {
      assert [TreemapRect(c, items[0])][..0] == [];
    } else {
      ContainerIsProper(areas, c);
      var vertical, side := c.w >= c.h, MinOf(c.w, c.h);
      var k := RowLength(areas, side);
      StripFits(areas, c, vertical, k);
      var row, thick := areas[..k], Sum(areas[..k]) / side;
      var rest := RestOf(c, vertical, thick);
      RowCovers(items[..k], row, c, vertical, thick, k, px, py);
      StripSpans(row, side);
      CoversOnce(items[k..], areas[k..], rest, px, py);
      SplitContains(c, vertical, thick, px, py);
      CoverAppend(RowRects(items[..k], row, c, vertical, thick, k), Squarified(items[k..], areas[k..], rest), px, py);
    }
  }

  lemma Degenerate(c: Rect, px: real, py: real)
    requires c.w >= 0.0 && c.h >= 0.0 && Area(c) == 0.0
    ensures !Contains(c, px, py)
  {
    if c.w > 0.0 && c.h > 0.0 {
      AreaPositive(c.w, c.h);
    }
  }

  /** The whole layout tiles the drawing area. */
  lemma LayoutTiles(items: seq<Item>, width: real, height: real)
    requires width > 0.0 && height > 0.0 && Positive(items) != []
    ensures Tiles(Layout(items, width, height), Whole(width, height))
  {
    var p := Positive(items);
    PositiveOnly(items);
    SharesFit(p, width, height);
    SortPermutes(p);
    var areas := Areas(SortDescending(p), Sum(Bytes(p)), Area(Whole(width, height)));
    forall px, py
      ensures Cover(Layout(items, width, height), px, py) == if Contains(Whole(width, height), px, py) then 1 else 0
    {
      CoversOnce(SortDescending(p), areas, Whole(width, height), px, py);
    }
  }

  /** Nothing is drawn exactly if there is nothing to draw or nowhere to draw it. */
  lemma LayoutEmptyIff(items: seq<Item>, width: real, height: real)
    ensures Layout(items, width, height) == []
       <==> width <= 0.0 || height <= 0.0 || forall item | item in items :: item.bytes <= 0.0
  {
    var p := Positive(items);
    PositiveOnly(items);
    if p != [] {
      assert p[0] in multiset(p);
      assert multiset(items)[p[0]] > 0;
      assert p[0] in items && p[0].bytes > 0.0;
      if width > 0.0 && height > 0.0 {
        LayoutShares(items, width, height);
        SortPermutes(p);
      }
    } else {
      forall item | item in items ensures item.bytes <= 0.0
      {
        assert multiset(items)[item] > 0;
        assert multiset(p)[item] == 0;
      }
    }
  }

  lemma {:induction false} CoverAtLeast(rects: seq<TreemapRect>, i: nat, j: nat, px: real, py: real)
    requires i < |rects| && Contains(rects[i].rect, px, py)
    requires j < |rects| && Contains(rects[j].rect, px, py)
    ensures Cover(rects, px, py) >= if i == j then 1 else 2
  {
    var n := |rects| - 1;
    if i < n && j < n {
      CoverAtLeast(rects[..n], i, j, px, py);
    } else if i < n {
      CoverAtLeast(rects[..n], i, i, px, py);
    } else if j < n {
      CoverAtLeast(rects[..n], j, j, px, py);
    }
  }

  /** In particular each rectangle lies inside and no two overlap. */
  lemma TilesApart(rects: seq<TreemapRect>, c: Rect, i: nat, j: nat, px: real, py: real)
    requires Tiles(rects, c) && i < |rects| && j < |rects|
    requires Contains(rects[i].rect, px, py) && Contains(rects[j].rect, px, py)
    ensures Contains(c, px, py) && i == j
  {
    CoverAtLeast(rects, i, j, px, py);
    assert Cover(rects, px, py) == if Contains(c, px, py) then 1 else 0;
  }

  // ----- each item's share -----

  /** Rectangle `i` holds item `i`, is proper, and has area `i`. */
  ghost predicate Shares(rects: seq<TreemapRect>, items: seq<Item>, areas: seq<real>) {
    && |rects| == |items| == |areas|
    && forall i | 0 <= i < |rects| ::
         rects[i].item == items[i] && rects[i].rect.w > 0.0 && rects[i].rect.h > 0.0 && Area(rects[i].rect) == areas[i]
  }

  lemma {:induction false} RowShares(items: seq<Item>, row: seq<real>, c: Rect, vertical: bool, thick: real, n: nat)
    requires n <= |row| == |items| && thick > 0.0 && AllPositive(row)
    ensures Shares(RowRects(items, row, c, vertical, thick, n), items[..n], row[..n])
  {
    if n > 0 {
      RowShares(items, row, c, vertical, thick, n - 1);
      QuotientPositive(row[n - 1], thick);
    }
  }

  lemma SharesAppend(a: seq<TreemapRect>, b: seq<TreemapRect>, items: seq<Item>, areas: seq<real>, k: nat)
    requires k <= |items| == |areas|
    requires Shares(a, items[..k], areas[..k]) && Shares(b, items[k..], areas[k..])
    ensures Shares(a + b, items, areas)
  {
    forall i | 0 <= i < |a + b|
      ensures var r := (a + b)[i];
        r.item == items[i] && r.rect.w > 0.0 && r.rect.h > 0.0 && Area(r.rect) == areas[i]
    {
      if i < k {
        assert a[i].item == items[..k][i];
      } else {
        assert b[i - k].item == items[k..][i - k];
      }
    }
  }

  lemma {:induction false} SquarifiedShares(items: seq<Item>, areas: seq<real>, c: Rect)
    requires |items| == |areas| && Fits(areas, c)
    ensures Shares(Squarified(items, areas, c), items, areas)
    decreases |items|
  {
    if items == [] {
    } else if |items| == 1 {
      ContainerIsProper(areas, c);
      assert areas[..1] == areas && areas[..0] == [];
      assert Sum(areas) == Sum(areas[..0]) + areas[0] == areas[0];
    } else {
      ContainerIsProper(areas, c);
      var vertical, side := c.w >= c.h, MinOf(c.w, c.h);
      var k := RowLength(areas, side);
      StripFits(areas, c, vertical, k);
      var thick := Sum(areas[..k]) / side;
      var rest := RestOf(c, vertical, thick);
      RowShares(items[..k], areas[..k], c, vertical, thick, k);
      assert items[..k][..k] == items[..k] && areas[..k][..k] == areas[..k];
      SquarifiedShares(items[k..], areas[k..], rest);
      SharesAppend(RowRects(items[..k], areas[..k], c, vertical, thick, k), Squarified(items[k..], areas[k..], rest), items, areas, k);
    }
  }

  /**
   * The layout shows exactly the items with positive size, in descending order, each with the share of the drawing
   * area that its bytes have of the total; these shares add up to the drawing area.
   */
  lemma LayoutShares(items: seq<Item>, width: real, height: real)
    requires width > 0.0 && height > 0.0 && Positive(items) != []
    ensures var p := Positive(items); var sorted, total := SortDescending(p), Sum(Bytes(p));
      && total > 0.0 && Descending(sorted)
      && (forall item :: multiset(sorted)[item] == if item.bytes > 0.0 then multiset(items)[item] else 0)
      && Shares(Layout(items, width, height), sorted, Areas(sorted, total, Area(Whole(width, height))))
      && Sum(Areas(sorted, total, Area(Whole(width, height)))) == Area(Whole(width, height))
  {
    var p := Positive(items);
    PositiveOnly(items);
    SharesFit(p, width, height);
    SortPermutes(p);
    SortDescends(p);
    SquarifiedShares(SortDescending(p), Areas(SortDescending(p), Sum(Bytes(p)), Area(Whole(width, height))), Whole(width, height));
  }

  // ----- the greedy choice -----

  /** How far a rectangle is from square. */
  function Aspect(r: Rect): real
    requires r.w > 0.0 && r.h > 0.0
  {
    MaxOf(r.w / r.h, r.h / r.w)
  }

  lemma UniqueQuotient(x: real, a: real, b: real)
    requires b > 0.0 && x * b == a
    ensures x == a / b
  {
  }

  /** The piece's length along the strip and the strip's thickness, against the ratio computed from the areas. */
  lemma PieceRatios(area: real, total: real, side: real)
    requires area > 0.0 && total > 0.0 && side > 0.0
    ensures var thick := total / side;
      thick > 0.0 && area / thick > 0.0
      && MaxOf(area / thick / thick, thick / (area / thick)) == ItemAspect(area, total, side)
  {
    QuotientPositive(total, side);
    var thick := total / side;
    QuotientPositive(area, thick);
    var len := area / thick;
    QuotientPositive(len, thick);
    QuotientPositive(thick, len);
    var r, q := len / thick, thick / len;
    var n, d := Product(Product(side, side), area), Product(total, total);
    calc {
      r * d;
      r * ((thick * side) * (thick * side));
      (r * thick) * (side * side) * thick;
      len * (side * side) * thick;
      side * side * (len * thick);
      n;
    }
    UniqueQuotient(r, n, d);
    calc {
      q * n;
      q * (side * side * (len * thick));
      (q * len) * thick * (side * side);
      thick * thick * (side * side);
      (thick * side) * (thick * side);
      d;
    }
    UniqueQuotient(q, d, n);
  }

  /** The ratio computed for an item is the aspect of the rectangle it then gets. */
  lemma RowAspects(items: seq<Item>, row: seq<real>, c: Rect, vertical: bool, i: nat)
    requires i < |row| == |items| && AllPositive(row) && c.w > 0.0 && c.h > 0.0
    ensures var side := Side(c, vertical); var thick := Sum(row) / side;
      && Sum(row) > 0.0 && thick > 0.0 && row[i] / thick > 0.0
      && Aspect(Piece(c, vertical, thick, Offset(row, thick, i), row[i] / thick)) == ItemAspect(row[i], Sum(row), side)
  {
    SumPositive(row);
    PieceRatios(row[i], Sum(row), Side(c, vertical));
  }

  /** The fold is the maximum over the row. */
  lemma {:induction false} WorstIsMax(row: seq<real>, total: real, side: real) returns (at: nat)
    requires row != [] && AllPositive(row) && total > 0.0 && side > 0.0
    ensures at < |row| && WorstOver(row, total, side) == ItemAspect(row[at], total, side)
    ensures forall i | 0 <= i < |row| :: ItemAspect(row[i], total, side) <= WorstOver(row, total, side)
  {
    var n := |row| - 1;
    RatioPositive(row[n], total, side);
    if n == 0 {
      at := 0;
    } else {
      at := WorstIsMax(row[..n], total, side);
      if WorstOver(row[..n], total, side) < ItemAspect(row[n], total, side) {
        at := n;
      }
    }
  }

  lemma RatioPositive(area: real, total: real, side: real)
    requires area > 0.0 && total > 0.0 && side > 0.0
    ensures ItemAspect(area, total, side) > 0.0
  {
    QuotientPositive(Product(Product(side, side), area), Product(total, total));
  }

  /**
   * What `worstAspect` reports for a row is the worst aspect ratio among the rectangles that the row is then laid
   * out as, on either edge.
   */
  lemma WorstIsTrue(items: seq<Item>, row: seq<real>, c: Rect, vertical: bool)
    requires 0 < |row| == |items| && AllPositive(row) && c.w > 0.0 && c.h > 0.0
    ensures Sum(row) > 0.0 && Sum(row) / Side(c, vertical) > 0.0
    ensures var side := Side(c, vertical); var thick := Sum(row) / side;
      var rects, w := RowRects(items, row, c, vertical, thick, |row|), Worst(row, Sum(row), side);
      && w.Finite? && Shares(rects, items, row)
      && (forall i | 0 <= i < |rects| :: Aspect(rects[i].rect) <= w.v)
      && (exists i :: 0 <= i < |rects| && Aspect(rects[i].rect) == w.v)
  {
    SumPositive(row);
    var side := Side(c, vertical);
    QuotientPositive(Sum(row), side);
    var thick := Sum(row) / side;
    var rects := RowRects(items, row, c, vertical, thick, |row|);
    RowShares(items, row, c, vertical, thick, |row|);
    assert items[..|row|] == items && row[..|row|] == row;
    var at := WorstIsMax(row, Sum(row), side);
    forall i | 0 <= i < |rects| ensures Aspect(rects[i].rect) == ItemAspect(row[i], Sum(row), side)
    {
      RowAspects(items, row, c, vertical, i);
      RowRectAt(items, row, c, vertical, thick, |row|, i);
    }
    assert Aspect(rects[at].rect) == WorstOver(row, Sum(row), side);
  }

  lemma {:induction false} RowRectAt(
    items: seq<Item>, row: seq<real>, c: Rect, vertical: bool, thick: real, n: nat, i: nat)
    requires i < n <= |row| == |items| && thick > 0.0
    ensures |RowRects(items, row, c, vertical, thick, n)| == n
    ensures RowRects(items, row, c, vertical, thick, n)[i].rect
         == Piece(c, vertical, thick, Offset(row, thick, i), row[i] / thick)
  {
    RowRectsLength(items, row, c, vertical, thick, n - 1);
    if i < n - 1 {
      RowRectAt(items, row, c, vertical, thick, n - 1, i);
    }
  }

  lemma {:induction false} RowRectsLength(items: seq<Item>, row: seq<real>, c: Rect, vertical: bool, thick: real, n: nat)
    requires n <= |row| == |items| && thick > 0.0
    ensures |RowRects(items, row, c, vertical, thick, n)| == n
  {
    if n > 0 {
      RowRectsLength(items, row, c, vertical, thick, n - 1);
    }
  }

  lemma MonotoneQuotient(a: real, b: real, d: real)
    requires 0.0 < a <= b && d > 0.0
    ensures a / d <= b / d && d / b <= d / a
  {
    var u, v := d / b, d / a;
    assert u * b == d && v * a == d;
    assert v * b >= v * a;
  }

  lemma MonotoneProduct(m: real, a: real, b: real)
    requires 0.0 < a <= b && m > 0.0
    ensures Product(m, a) <= Product(m, b)
  {
  }

  /** Between two areas, the ratio is at most that of one of them. */
  lemma BetweenIsBetter(low: real, area: real, high: real, total: real, side: real)
    requires 0.0 < low <= area <= high && total > 0.0 && side > 0.0
    ensures ItemAspect(area, total, side) <= MaxOf(ItemAspect(high, total, side), ItemAspect(low, total, side))
  {
    var s2, d := Product(side, side), Product(total, total);
    MonotoneProduct(s2, area, high);
    MonotoneProduct(s2, low, area);
    MonotoneQuotient(Product(s2, area), Product(s2, high), d);
    MonotoneQuotient(Product(s2, low), Product(s2, area), d);
  }

  /** On descending areas the two ends of the row decide. */
  lemma EndsDecide(row: seq<real>, total: real, side: real)
    requires row != [] && AllPositive(row) && total > 0.0 && side > 0.0
    requires forall i, j | 0 <= i < j < |row| :: row[i] >= row[j]
    ensures WorstOver(row, total, side)
         == MaxOf(ItemAspect(row[0], total, side), ItemAspect(row[|row| - 1], total, side))
  {
    var first, last := row[0], row[|row| - 1];
    var at := WorstIsMax(row, total, side);
    assert last <= row[at] <= first;
    BetweenIsBetter(last, row[at], first, total, side);
  }

  /** The chosen row is no worse than any shorter one, and one more item would make it strictly worse. */
  lemma {:induction false} ChosenRowIsBest(areas: seq<real>, side: real, k: nat, j: nat)
    requires RowEnds(areas, side, k) && 1 <= j <= k
    ensures PrefixWorst(areas, side, k).AtMost(PrefixWorst(areas, side, j))
    ensures k < |areas| ==> !PrefixWorst(areas, side, k + 1).AtMost(PrefixWorst(areas, side, k))
    decreases k - j
  {
    if j < k {
      ChosenRowIsBest(areas, side, k, j + 1);
    }
  }

  /** No rectangle of one row is further from square than the worst of another. */
  ghost predicate NoneWorse(rects: seq<TreemapRect>, other: seq<TreemapRect>) {
    forall i | 0 <= i < |rects| && Proper(rects[i].rect) ::
      exists j :: 0 <= j < |other| && Proper(other[j].rect) && Aspect(rects[i].rect) <= Aspect(other[j].rect)
  }

  predicate Proper(r: Rect) {
    r.w > 0.0 && r.h > 0.0
  }

  /** The first `k` items laid out as one row of the container. */
  function AsRow(items: seq<Item>, areas: seq<real>, c: Rect, k: nat): seq<TreemapRect>
    requires 1 <= k <= |areas| == |items| && Fits(areas, c) && c.w > 0.0 && c.h > 0.0
  {
    StripFits(areas, c, c.w >= c.h, k);
    RowRects(items[..k], areas[..k], c, c.w >= c.h, Sum(areas[..k]) / MinOf(c.w, c.h), k)
  }

  lemma RowWorst(items: seq<Item>, areas: seq<real>, c: Rect, k: nat) returns (at: nat)
    requires 1 <= k <= |areas| == |items| && Fits(areas, c) && c.w > 0.0 && c.h > 0.0
    ensures var rects, w := AsRow(items, areas, c, k), PrefixWorst(areas, MinOf(c.w, c.h), k);
      && w.Finite? && |rects| == k && at < k
      && (forall i | 0 <= i < k :: Proper(rects[i].rect) && Aspect(rects[i].rect) <= w.v)
      && Aspect(rects[at].rect) == w.v
  {
    var vertical := c.w >= c.h;
    WorstIsTrue(items[..k], areas[..k], c, vertical);
    var rects := AsRow(items, areas, c, k);
    at :| 0 <= at < |rects| && Aspect(rects[at].rect) == PrefixWorst(areas, MinOf(c.w, c.h), k).v;
  }

  /**
   * In terms of the rectangles themselves: the row that is laid out has no rectangle further from square than the
   * worst one of any shorter row, and one more item would give a rectangle worse than all of them.
   */
  lemma GreedyRowIsSquarest(items: seq<Item>, areas: seq<real>, c: Rect, j: nat)
    requires areas != [] && |areas| == |items| && Fits(areas, c) && c.w > 0.0 && c.h > 0.0
    ensures var k := RowLength(areas, MinOf(c.w, c.h));
      && (1 <= j <= k ==> NoneWorse(AsRow(items, areas, c, k), AsRow(items, areas, c, j)))
      && (k < |areas| ==> !NoneWorse(AsRow(items, areas, c, k + 1), AsRow(items, areas, c, k)))
  {
    var side := MinOf(c.w, c.h);
    var k := RowLength(areas, side);
    var atK := RowWorst(items, areas, c, k);
    if 1 <= j <= k {
      ChosenRowIsBest(areas, side, k, j);
      var atJ := RowWorst(items, areas, c, j);
    }
    if k < |areas| {
      var atNext := RowWorst(items, areas, c, k + 1);
      assert Proper(AsRow(items, areas, c, k + 1)[atNext].rect);
    }
  }
}
