/** Rectangles, sums of areas, and the two facts about strips that the treemap rests on. */
module TreemapGeometry {
  datatype Rect = Rect(x: real, y: real, w: real, h: real)

  /** Half-open, so that neighbours do not share their common edge. */
  predicate Contains(r: Rect, px: real, py: real) {
    r.x <= px < r.x + r.w && r.y <= py < r.y + r.h
  }

  function Area(r: Rect): real {
    r.w * r.h
  }

  function Sum(areas: seq<real>): real {
    if areas == [] then 0.0 else Sum(areas[..|areas| - 1]) + areas[|areas| - 1]
  }

  ghost predicate AllPositive(areas: seq<real>) {
    forall i | 0 <= i < |areas| :: areas[i] > 0.0
  }

  lemma {:induction false} SumPositive(areas: seq<real>)
    requires AllPositive(areas)
    ensures Sum(areas) >= 0.0 && (areas != [] ==> Sum(areas) > 0.0)
  {
    if areas != [] {
      SumPositive(areas[..|areas| - 1]);
    }
  }

  lemma {:induction false} SumSplit(areas: seq<real>, k: nat)
    requires k <= |areas|
    ensures Sum(areas) == Sum(areas[..k]) + Sum(areas[k..])
  {
    if k < |areas| {
      var n := |areas| - 1;
      SumSplit(areas[..n], k);
      assert areas[..n][..k] == areas[..k] && areas[..n][k..] == areas[k..][..n - k];
    } else {
      assert areas[..k] == areas;
    }
  }

  /** A strip along one side of a container: on the left edge if `vertical`, on the top edge otherwise. */
  function StripOf(c: Rect, vertical: bool, thick: real): Rect {
    if vertical then Rect(c.x, c.y, thick, c.h) else Rect(c.x, c.y, c.w, thick)
  }

  function RestOf(c: Rect, vertical: bool, thick: real): Rect {
    if vertical then Rect(c.x + thick, c.y, c.w - thick, c.h) else Rect(c.x, c.y + thick, c.w, c.h - thick)
  }

  /** The part of the strip from `off` along the side, `len` long. */
  function Piece(c: Rect, vertical: bool, thick: real, off: real, len: real): Rect {
    if vertical then Rect(c.x, c.y + off, thick, len) else Rect(c.x + off, c.y, len, thick)
  }

  function Side(c: Rect, vertical: bool): real {
    if vertical then c.h else c.w
  }

  /** How far along the strip piece `i` begins. */
  function Offset(row: seq<real>, thick: real, i: nat): real
    requires i <= |row| && thick > 0.0
  {
    if i == 0 then 0.0 else Offset(row, thick, i - 1) + row[i - 1] / thick
  }

  lemma QuotientPositive(a: real, b: real)
    requires a > 0.0 && b > 0.0
    ensures a / b > 0.0 && b * (a / b) == a && (a / b) * b == a
  {
  }

  lemma QuotientAdds(a: real, b: real, d: real)
    requires d > 0.0
    ensures a / d + b / d == (a + b) / d
  {
  }

  lemma {:induction false} OffsetIsShare(row: seq<real>, thick: real, i: nat)
    requires i <= |row| && thick > 0.0
    ensures Offset(row, thick, i) == Sum(row[..i]) / thick
  {
    if i > 0 {
      OffsetIsShare(row, thick, i - 1);
      assert row[..i][..i - 1] == row[..i - 1];
      QuotientAdds(Sum(row[..i - 1]), row[i - 1], thick);
    }
  }

  /** The strip whose pieces hold a row is as thick as the row's area over the side; its pieces span the side. */
  lemma StripSpans(row: seq<real>, side: real)
    requires row != [] && AllPositive(row) && side > 0.0
    ensures Sum(row) / side > 0.0
    ensures Offset(row, Sum(row) / side, |row|) == side
  {
    SumPositive(row);
    var thick := Sum(row) / side;
    QuotientPositive(Sum(row), side);
    OffsetIsShare(row, thick, |row|);
    assert row[..|row|] == row;
    QuotientPositive(Sum(row), thick);
    Cancel(Sum(row), side);
  }

  lemma Cancel(a: real, b: real)
    requires a > 0.0 && b > 0.0
    ensures a / b > 0.0 && a / (a / b) == b
  {
    var q := a / b;
    assert q * b == a;
    assert a / q == b by {
      assert (q * b) / q == b;
    }
  }
}
