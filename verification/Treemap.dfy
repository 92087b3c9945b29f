/** Squarified treemap: rows are chosen greedily by aspect ratio and laid along the shorter side, recursively. */
module Treemap {
  import opened TreemapGeometry

  datatype Item = Item(name: string, bytes: real, category: string)

  datatype TreemapRect = TreemapRect(rect: Rect, item: Item)

  /** A worst aspect ratio; the code starts from `Infinity`. */
  datatype Bound = Finite(v: real) | Infinity {
    predicate AtMost(other: Bound) {
      other.Infinity? || (Finite? && v <= other.v)
    }
  }

  function MaxOf(a: real, b: real): real {
    if a >= b then a else b
  }

  function MinOf(a: real, b: real): real {
    if a <= b then a else b
  }

  // ----- the greedy row -----

  /** A product of positive numbers. */
  function Product(a: real, b: real): (r: real)
    requires a > 0.0 && b > 0.0
    ensures r > 0.0
  {
    a * b
  }

  /** The larger of the two side ratios, as the code computes it from the areas. */
  function ItemAspect(area: real, rowTotal: real, side: real): real
    requires area > 0.0 && rowTotal > 0.0 && side > 0.0
  {
    var n, d := Product(Product(side, side), area), Product(rowTotal, rowTotal);
    MaxOf(n / d, d / n)
  }

  function WorstOver(row: seq<real>, rowTotal: real, side: real): real
    requires rowTotal > 0.0 && side > 0.0
  {
    if row == [] then 0.0
    else
      var head, area := WorstOver(row[..|row| - 1], rowTotal, side), row[|row| - 1];
      if area <= 0.0 then head else MaxOf(head, ItemAspect(area, rowTotal, side))
  }

  function Worst(row: seq<real>, rowTotal: real, side: real): Bound {
    if side <= 0.0 || rowTotal <= 0.0 then Infinity else Finite(WorstOver(row, rowTotal, side))
  }

  method WorstAspect(row: seq<real>, rowTotal: real, shortSide: real) returns (worst: Bound)
    ensures worst == Worst(row, rowTotal, shortSide)
  {
    if shortSide <= 0.0 || rowTotal <= 0.0 {
      return Infinity;
    }
    var s2 := Product(shortSide, shortSide);
    var w := 0.0;
    var i := 0;
    while i < |row|
      invariant 0 <= i <= |row|
      invariant w == WorstOver(row[..i], rowTotal, shortSide)
    {
      assert row[..i + 1][..i] == row[..i];
      if row[i] > 0.0 {
        var r1 := Product(s2, row[i]) / Product(rowTotal, rowTotal);
        var r2 := Product(rowTotal, rowTotal) / Product(s2, row[i]);
        w := MaxOf(w, MaxOf(r1, r2));
      }
      i := i + 1;
    }
    assert row[..i] == row;
    worst := Finite(w);
  }

  /** The ratio the code computes for the first `k` areas as a row. */
  function PrefixWorst(areas: seq<real>, side: real, k: nat): Bound
    requires k <= |areas|
  {
    Worst(areas[..k], Sum(areas[..k]), side)
  }

  /** The row ends before the first prefix that is worse than the one before it. */
  ghost predicate RowEnds(areas: seq<real>, side: real, k: nat) {
    && 1 <= k <= |areas|
    && (forall j | 1 <= j < k :: PrefixWorst(areas, side, j + 1).AtMost(PrefixWorst(areas, side, j)))
    && (k < |areas| ==> !PrefixWorst(areas, side, k + 1).AtMost(PrefixWorst(areas, side, k)))
  }

  function RowFrom(areas: seq<real>, side: real, k: nat): (end: nat)
    requires 1 <= k <= |areas|
    requires forall j | 1 <= j < k :: PrefixWorst(areas, side, j + 1).AtMost(PrefixWorst(areas, side, j))
    ensures RowEnds(areas, side, end)
    decreases |areas| - k
  {
    if k < |areas| && PrefixWorst(areas, side, k + 1).AtMost(PrefixWorst(areas, side, k)) then
      RowFrom(areas, side, k + 1)
    else k
  }

  /** How many items the first row takes: at least one. */
  function RowLength(areas: seq<real>, side: real): (k: nat)
    requires areas != []
    ensures RowEnds(areas, side, k)
  {
    RowFrom(areas, side, 1)
  }

  lemma RowEndUnique(areas: seq<real>, side: real, k: nat, l: nat)
    requires RowEnds(areas, side, k) && RowEnds(areas, side, l)
    ensures k == l
  {
  }

  /** The scan over the items that picks the row. */
  method ChooseRow(areas: seq<real>, shortSide: real) returns (bestIdx: nat)
    requires areas != []
    ensures bestIdx + 1 == RowLength(areas, shortSide)
  {
    var rowArea := 0.0;
    var bestWorst := Infinity;
    bestIdx := 0;
    var i := 0;
    while i < |areas|
      invariant 0 <= i <= |areas|
      invariant rowArea == Sum(areas[..i])
      invariant if i == 0 then bestIdx == 0 && bestWorst == Infinity
                else bestIdx == i - 1 && bestWorst == PrefixWorst(areas, shortSide, i)
      invariant forall j | 1 <= j < i :: PrefixWorst(areas, shortSide, j + 1).AtMost(PrefixWorst(areas, shortSide, j))
    {
      assert areas[..i + 1][..i] == areas[..i];
      rowArea := rowArea + areas[i];
      var worst := WorstAspect(areas[..i + 1], rowArea, shortSide);
      if worst.AtMost(bestWorst) {
        bestWorst := worst;
        bestIdx := i;
      } else {
        break;
      }
      i := i + 1;
    }
    RowEndUnique(areas, shortSide, bestIdx + 1, RowLength(areas, shortSide));
  }

  // ----- the layout -----

  /** The areas are positive and fill the container exactly. */
  ghost predicate Fits(areas: seq<real>, c: Rect) {
    AllPositive(areas) && c.w >= 0.0 && c.h >= 0.0 && Sum(areas) == Area(c)
  }

  /** The first `n` rectangles of a row. */
  function RowRects(items: seq<Item>, row: seq<real>, c: Rect, vertical: bool, thick: real, n: nat): seq<TreemapRect>
    requires n <= |row| == |items| && thick > 0.0
  {
    if n == 0 then []
    else
      RowRects(items, row, c, vertical, thick, n - 1)
      + [TreemapRect(Piece(c, vertical, thick, Offset(row, thick, n - 1), row[n - 1] / thick), items[n - 1])]
  }

  lemma ContainerIsProper(areas: seq<real>, c: Rect)
    requires Fits(areas, c) && areas != []
    ensures c.w > 0.0 && c.h > 0.0
  {
    SumPositive(areas);
  }

  lemma StripFits(areas: seq<real>, c: Rect, vertical: bool, k: nat)
    requires Fits(areas, c) && 1 <= k <= |areas|
    requires c.w > 0.0 && c.h > 0.0
    ensures var thick := Sum(areas[..k]) / Side(c, vertical);
      thick > 0.0 && Fits(areas[k..], RestOf(c, vertical, thick))
  {
    var row, rest, side := areas[..k], areas[k..], Side(c, vertical);
    SumSplit(areas, k);
    SumPositive(row);
    SumPositive(rest);
    QuotientPositive(Sum(row), side);
    var thick := Sum(row) / side;
    Remaining(if vertical then c.w else c.h, side, thick, Sum(rest));
  }

  lemma Remaining(other: real, side: real, thick: real, rest: real)
    requires side > 0.0 && rest >= 0.0 && thick * side + rest == other * side
    ensures other - thick >= 0.0 && (other - thick) * side == rest && side * (other - thick) == rest
  {
    assert (other - thick) * side == rest;
  }

  function Squarified(items: seq<Item>, areas: seq<real>, c: Rect): seq<TreemapRect>
    requires |items| == |areas| && Fits(areas, c)
    decreases |items|
  {
    if items == [] then []
    else if |items| == 1 then [TreemapRect(c, items[0])]
    else
      ContainerIsProper(areas, c);
      var vertical, side := c.w >= c.h, MinOf(c.w, c.h);
      var k := RowLength(areas, side);
      StripFits(areas, c, vertical, k);
      var thick := Sum(areas[..k]) / side;
      RowRects(items[..k], areas[..k], c, vertical, thick, k)
      + Squarified(items[k..], areas[k..], RestOf(c, vertical, thick))
  }

  /** The output list that the recursion pushes into. */
  class RectList {
    var rects: seq<TreemapRect>

    constructor ()
      ensures rects == []
    {
      rects := [];
    }

    method Push(r: TreemapRect)
      modifies this
      ensures rects == old(rects) + [r]
    {
      rects := rects + [r];
    }
  }

  method AddAll(areas: seq<real>) returns (total: real)
    ensures total == Sum(areas)
  {
    total := 0.0;
    var i := 0;
    while i < |areas|
      invariant 0 <= i <= |areas|
      invariant total == Sum(areas[..i])
    {
      assert areas[..i + 1][..i] == areas[..i];
      total := total + areas[i];
      i := i + 1;
    }
    assert areas[..i] == areas;
  }

  method Squarify(items: seq<Item>, areas: seq<real>, c: Rect, out: RectList)
    requires |items| == |areas| && Fits(areas, c)
    modifies out
    ensures out.rects == old(out.rects) + Squarified(items, areas, c)
    decreases |items|
  {
    if |items| == 0 { return; }
    if |items| == 1 {
      out.Push(TreemapRect(c, items[0]));
      return;
    }
    ContainerIsProper(areas, c);
    var shortSide := MinOf(c.w, c.h);
    var bestIdx := ChooseRow(areas, shortSide);
    var remaining := LayRow(items, areas, c, bestIdx + 1, out);
    Squarify(items[bestIdx + 1..], areas[bestIdx + 1..], remaining, out);
    RowThenRest(items, areas, c, bestIdx + 1, remaining);
  }

  lemma RowThenRest(items: seq<Item>, areas: seq<real>, c: Rect, k: nat, remaining: Rect)
    requires 1 < |items| == |areas| && Fits(areas, c) && c.w > 0.0 && c.h > 0.0
    requires k == RowLength(areas, MinOf(c.w, c.h)) && Fits(areas[k..], remaining)
    requires var thick := Sum(areas[..k]) / MinOf(c.w, c.h);
      thick > 0.0 && remaining == RestOf(c, c.w >= c.h, thick)
    ensures Squarified(items, areas, c)
         == RowRects(items[..k], areas[..k], c, c.w >= c.h, Sum(areas[..k]) / MinOf(c.w, c.h), k)
            + Squarified(items[k..], areas[k..], remaining)
  {
  }

  /** Lay the first `k` items along the shorter side and return what is left of the container. */
  method LayRow(items: seq<Item>, areas: seq<real>, c: Rect, k: nat, out: RectList) returns (remaining: Rect)
    requires |items| == |areas| && Fits(areas, c) && c.w > 0.0 && c.h > 0.0
    requires 1 <= k <= |areas|
    modifies out
    ensures var vertical := c.w >= c.h; var thick := Sum(areas[..k]) / MinOf(c.w, c.h);
      && thick > 0.0
      && out.rects == old(out.rects) + RowRects(items[..k], areas[..k], c, vertical, thick, k)
      && remaining == RestOf(c, vertical, thick)
      && Fits(areas[k..], remaining)
  {
    StripFits(areas, c, c.w >= c.h, k);
    var rowTotal := AddAll(areas[..k]);
    if c.w >= c.h {
      remaining := LayColumn(items[..k], areas[..k], c, rowTotal, out);
    } else {
      remaining := LayLine(items[..k], areas[..k], c, rowTotal, out);
    }
  }

  /** A row along the left edge. */
  method LayColumn(items: seq<Item>, row: seq<real>, c: Rect, rowTotal: real, out: RectList) returns (remaining: Rect)
    requires |items| == |row| && rowTotal == Sum(row)
    requires c.h > 0.0 && rowTotal / c.h > 0.0
    modifies out
    ensures out.rects == old(out.rects) + RowRects(items, row, c, true, rowTotal / c.h, |row|)
    ensures remaining == RestOf(c, true, rowTotal / c.h)
  {
    var stripWidth := rowTotal / c.h;
    var cy := c.y;
    var i := 0;
    while i < |items|
      invariant 0 <= i <= |items|
      invariant cy == c.y + Offset(row, stripWidth, i)
      invariant out.rects == old(out.rects) + RowRects(items, row, c, true, stripWidth, i)
    {
      var itemH := row[i] / stripWidth;
      out.Push(TreemapRect(Rect(c.x, cy, stripWidth, itemH), items[i]));
      cy := cy + itemH;
      i := i + 1;
    }
    remaining := Rect(c.x + stripWidth, c.y, c.w - stripWidth, c.h);
  }

  /** A row along the top edge. */
  method LayLine(items: seq<Item>, row: seq<real>, c: Rect, rowTotal: real, out: RectList) returns (remaining: Rect)
    requires |items| == |row| && rowTotal == Sum(row)
    requires c.w > 0.0 && rowTotal / c.w > 0.0
    modifies out
    ensures out.rects == old(out.rects) + RowRects(items, row, c, false, rowTotal / c.w, |row|)
    ensures remaining == RestOf(c, false, rowTotal / c.w)
  {
    var stripHeight := rowTotal / c.w;
    var cx := c.x;
    var i := 0;
    while i < |items|
      invariant 0 <= i <= |items|
      invariant cx == c.x + Offset(row, stripHeight, i)
      invariant out.rects == old(out.rects) + RowRects(items, row, c, false, stripHeight, i)
    {
      var itemW := row[i] / stripHeight;
      out.Push(TreemapRect(Rect(cx, c.y, itemW, stripHeight), items[i]));
      cx := cx + itemW;
      i := i + 1;
    }
    remaining := Rect(c.x, c.y + stripHeight, c.w, c.h - stripHeight);
  }

  // ----- from items to areas -----

  function Positive(items: seq<Item>): seq<Item> {
    if items == [] then []
    else
      var last := items[|items| - 1];
      Positive(items[..|items| - 1]) + if last.bytes > 0.0 then [last] else []
  }

  /** Stable insertion into a descending list. */
  function Insert(sorted: seq<Item>, item: Item): seq<Item> {
    if sorted == [] then [item]
    else
      var n := |sorted| - 1;
      if sorted[n].bytes >= item.bytes then sorted + [item] else Insert(sorted[..n], item) + [sorted[n]]
  }

  function SortDescending(items: seq<Item>): seq<Item> {
    if items == [] then [] else Insert(SortDescending(items[..|items| - 1]), items[|items| - 1])
  }

  function Bytes(items: seq<Item>): seq<real> {
    seq(|items|, i requires 0 <= i < |items| => items[i].bytes)
  }

  function Share(bytes: real, total: real, totalArea: real): real
    requires total > 0.0
  {
    bytes / total * totalArea
  }

  function Areas(items: seq<Item>, total: real, totalArea: real): seq<real>
    requires total > 0.0
  {
    seq(|items|, i requires 0 <= i < |items| => Share(items[i].bytes, total, totalArea))
  }

  ghost predicate Descending(items: seq<Item>) {
    forall i, j | 0 <= i < j < |items| :: items[i].bytes >= items[j].bytes
  }

  /** The filter keeps every item of positive size, as often as it occurs, and no other. */
  lemma {:induction false} PositiveOnly(items: seq<Item>)
    ensures forall i | 0 <= i < |Positive(items)| :: Positive(items)[i].bytes > 0.0
    ensures forall item :: multiset(Positive(items))[item] == if item.bytes > 0.0 then multiset(items)[item] else 0
  {
    if items != [] {
      PositiveOnly(items[..|items| - 1]);
      assert items == items[..|items| - 1] + [items[|items| - 1]];
    }
  }

  lemma {:induction false} InsertPermutes(sorted: seq<Item>, item: Item)
    ensures multiset(Insert(sorted, item)) == multiset(sorted) + multiset{item}
    ensures |Insert(sorted, item)| == |sorted| + 1
  {
    if sorted != [] {
      assert sorted == sorted[..|sorted| - 1] + [sorted[|sorted| - 1]];
      InsertPermutes(sorted[..|sorted| - 1], item);
    }
  }

  lemma {:induction false} InsertSums(sorted: seq<Item>, item: Item)
    ensures Sum(Bytes(Insert(sorted, item))) == Sum(Bytes(sorted)) + item.bytes
  {
    if sorted == [] {
      assert [item] == [] + [item];
      BytesOfAppend([], item);
    } else {
      var n := |sorted| - 1;
      assert sorted == sorted[..n] + [sorted[n]];
      BytesOfAppend(sorted[..n], sorted[n]);
      BytesOfAppend(sorted, item);
      if sorted[n].bytes < item.bytes {
        InsertSums(sorted[..n], item);
        BytesOfAppend(Insert(sorted[..n], item), sorted[n]);
      }
    }
  }

  lemma {:induction false} InsertBounded(sorted: seq<Item>, item: Item, low: real)
    requires item.bytes >= low && forall i | 0 <= i < |sorted| :: sorted[i].bytes >= low
    ensures forall i | 0 <= i < |Insert(sorted, item)| :: Insert(sorted, item)[i].bytes >= low
  {
    if sorted != [] {
      InsertBounded(sorted[..|sorted| - 1], item, low);
    }
  }

  lemma {:induction false} InsertDescending(sorted: seq<Item>, item: Item)
    requires Descending(sorted)
    ensures Descending(Insert(sorted, item))
  {
    if sorted != [] {
      var n := |sorted| - 1;
      if sorted[n].bytes < item.bytes {
        InsertDescending(sorted[..n], item);
        InsertBounded(sorted[..n], item, sorted[n].bytes);
      }
    }
  }

  lemma BytesOfAppend(items: seq<Item>, item: Item)
    ensures Bytes(items + [item]) == Bytes(items) + [item.bytes]
    ensures Sum(Bytes(items + [item])) == Sum(Bytes(items)) + item.bytes
  {
    assert (Bytes(items) + [item.bytes])[..|items|] == Bytes(items);
  }

  lemma {:induction false} SortPermutes(items: seq<Item>)
    ensures multiset(SortDescending(items)) == multiset(items) && |SortDescending(items)| == |items|
  {
    if items != [] {
      var n := |items| - 1;
      SortPermutes(items[..n]);
      InsertPermutes(SortDescending(items[..n]), items[n]);
      assert items == items[..n] + [items[n]];
    }
  }

  lemma {:induction false} SortSums(items: seq<Item>)
    ensures Sum(Bytes(SortDescending(items))) == Sum(Bytes(items))
  {
    if items != [] {
      var n := |items| - 1;
      SortSums(items[..n]);
      InsertSums(SortDescending(items[..n]), items[n]);
      assert items == items[..n] + [items[n]];
      BytesOfAppend(items[..n], items[n]);
    }
  }

  lemma {:induction false} SortDescends(items: seq<Item>)
    ensures Descending(SortDescending(items))
  {
    if items != [] {
      SortDescends(items[..|items| - 1]);
      InsertDescending(SortDescending(items[..|items| - 1]), items[|items| - 1]);
    }
  }

  lemma SortKeepsPositive(items: seq<Item>)
    requires forall i | 0 <= i < |items| :: items[i].bytes > 0.0
    ensures forall i | 0 <= i < |SortDescending(items)| :: SortDescending(items)[i].bytes > 0.0
  {
    var r := SortDescending(items);
    SortPermutes(items);
    forall i | 0 <= i < |r| ensures r[i].bytes > 0.0
    {
      assert r[i] in multiset(r);
      assert r[i] in multiset(items);
      var j :| 0 <= j < |items| && items[j] == r[i];
    }
  }

  lemma ShareAdds(a: real, b: real, total: real, totalArea: real)
    requires total > 0.0
    ensures Share(a, total, totalArea) + Share(b, total, totalArea) == Share(a + b, total, totalArea)
  {
    QuotientAdds(a, b, total);
  }

  lemma {:induction false} AreasSum(items: seq<Item>, total: real, totalArea: real)
    requires total > 0.0
    ensures Sum(Areas(items, total, totalArea)) == Share(Sum(Bytes(items)), total, totalArea)
  {
    if items == [] {
      assert Share(0.0, total, totalArea) == 0.0;
    } else {
      var n := |items| - 1;
      AreasSum(items[..n], total, totalArea);
      assert Areas(items, total, totalArea)[..n] == Areas(items[..n], total, totalArea);
      assert Bytes(items)[..n] == Bytes(items[..n]);
      ShareAdds(Sum(Bytes(items[..n])), items[n].bytes, total, totalArea);
    }
  }

  lemma ShareOfAll(total: real, totalArea: real)
    requires total > 0.0
    ensures Share(total, total, totalArea) == totalArea
  {
    QuotientPositive(total, total);
  }

  lemma SharePositive(b: real, total: real, totalArea: real)
    requires b > 0.0 && total > 0.0 && totalArea > 0.0
    ensures Share(b, total, totalArea) > 0.0
  {
    QuotientPositive(b, total);
  }

  lemma AreaPositive(width: real, height: real)
    requires width > 0.0 && height > 0.0
    ensures Area(Whole(width, height)) > 0.0
  {
  }

  lemma TotalPositive(items: seq<Item>)
    requires items != [] && forall i | 0 <= i < |items| :: items[i].bytes > 0.0
    ensures Sum(Bytes(items)) > 0.0
  {
    assert AllPositive(Bytes(items));
    SumPositive(Bytes(items));
  }

  lemma SharesPositive(items: seq<Item>, total: real, totalArea: real)
    requires total > 0.0 && totalArea > 0.0
    requires forall i | 0 <= i < |items| :: items[i].bytes > 0.0
    ensures AllPositive(Areas(items, total, totalArea))
  {
    forall i | 0 <= i < |items| ensures Areas(items, total, totalArea)[i] > 0.0
    {
      SharePositive(items[i].bytes, total, totalArea);
    }
  }

  lemma SharesSum(p: seq<Item>, total: real, totalArea: real)
    requires total == Sum(Bytes(p)) > 0.0
    ensures Sum(Areas(SortDescending(p), total, totalArea)) == totalArea
  {
    SortSums(p);
    AreasSum(SortDescending(p), total, totalArea);
    ShareOfAll(total, totalArea);
  }

  function Whole(width: real, height: real): Rect {
    Rect(0.0, 0.0, width, height)
  }

  /** Sorting and scaling yields areas that fill the container. */
  lemma SharesFit(p: seq<Item>, width: real, height: real)
    requires width > 0.0 && height > 0.0 && p != []
    requires forall i | 0 <= i < |p| :: p[i].bytes > 0.0
    ensures var total := Sum(Bytes(p));
      total > 0.0 && Fits(Areas(SortDescending(p), total, Area(Whole(width, height))), Whole(width, height))
  {
    TotalPositive(p);
    AreaPositive(width, height);
    SortKeepsPositive(p);
    SharesPositive(SortDescending(p), Sum(Bytes(p)), Area(Whole(width, height)));
    SharesSum(p, Sum(Bytes(p)), Area(Whole(width, height)));
  }

  function Layout(items: seq<Item>, width: real, height: real): seq<TreemapRect> {
    var p := Positive(items);
    if p == [] || width <= 0.0 || height <= 0.0 then []
    else
      PositiveOnly(items);
      SharesFit(p, width, height);
      SortPermutes(p);
      var sorted := SortDescending(p);
      Squarified(sorted, Areas(sorted, Sum(Bytes(p)), Area(Whole(width, height))), Whole(width, height))
  }

  method LayoutTreemap(items: seq<Item>, width: real, height: real) returns (rects: seq<TreemapRect>)
    ensures rects == Layout(items, width, height)
  {
    var filtered := Positive(items);
    if |filtered| == 0 || width <= 0.0 || height <= 0.0 {
      return [];
    }
    var totalBytes := AddAll(Bytes(filtered));
    PositiveOnly(items);
    SharesFit(filtered, width, height);
    SortPermutes(filtered);
    var sorted := SortDescending(filtered);
    var areas := Areas(sorted, totalBytes, Area(Whole(width, height)));
    var out := new RectList();
    Squarify(sorted, areas, Whole(width, height), out);
    rects := out.rects;
  }
}
