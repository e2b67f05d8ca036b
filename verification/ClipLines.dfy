/** Crossings lie on the lines that they cross, up to the cut to integers (navit/graphics.c and navit/geom.c). */
module ClipLines {
  import opened CArith
  import opened Coords
  import opened Clip

  /**
   * Where the line from u to v, first coordinates u1 and v1, second ones u2 and v2, has the first coordinate
   * `at`: on the screen the second one itself is cut, in maps its distance from u.
   */
  predicate CutAt(cut: Cut, u1: int, u2: int, v1: int, v2: int, at: int, c: int) {
    match cut
    case OfSum => IsCut(c, u2 * (v1 - u1) + (at - u1) * (v2 - u2), v1 - u1)
    case OfOffset => IsCut(c - u2, (at - u1) * (v2 - u2), v1 - u1)
  }

  /** c is where the line from a point outside of an edge to one inside meets the edge. */
  predicate Meets(cut: Cut, outside: Coord, inside: Coord, c: Coord, r: Rect, edge: int)
    requires 0 <= edge < 4
  {
    var a, b := outside, inside;
    if edge < 2 then c.x == Bound(r, edge) && CutAt(cut, a.x, a.y, b.x, b.y, c.x, c.y)
    else c.y == Bound(r, edge) && CutAt(cut, a.y, a.x, b.y, b.x, c.y, c.x)
  }

  /** How far c is off the line through a and b, times the length that is `len` */
  predicate OffBy(a: Coord, b: Coord, c: Coord, len: int) {
    Abs((c.y - a.y) * (b.x - a.x) - (c.x - a.x) * (b.y - a.y)) < len
  }

  lemma AlongIsCut(cut: Cut, u1: int, u2: int, v1: int, v2: int, at: int)
    requires u1 != v1
    ensures CutAt(cut, u1, u2, v1, v2, at, Along(cut, u1, u2, v1, v2, at))
  {
    QuotIsCut(u2 * (v1 - u1) + (at - u1) * (v2 - u2), v1 - u1);
    QuotIsCut((at - u1) * (v2 - u2), v1 - u1);
  }

  lemma CutIsNear(cut: Cut, u1: int, u2: int, v1: int, v2: int, at: int, c: int)
    requires CutAt(cut, u1, u2, v1, v2, at, c)
    ensures Abs((c - u2) * (v1 - u1) - (at - u1) * (v2 - u2)) < Abs(v1 - u1)
  {
    var d, n := v1 - u1, (at - u1) * (v2 - u2);
    assert (c - u2) * d == c * d - u2 * d;
    assert (u2 * d + n) - c * d == -((c - u2) * d - n);
  }

  /**
   * A crossing is on its edge and on the line, off by less than one unit along the edge, and which way it is off
   * depends on what is cut.
   */
  lemma CrossingOnLine(cut: Cut, p1: Coord, p2: Coord, r: Rect, edge: int)
    requires 0 <= edge < 4 && Inside(p1, r, edge) != Inside(p2, r, edge)
    ensures var c := Crossing(cut, p1, p2, r, edge);
      && Meets(cut, p1, p2, c, r, edge)
      && OffBy(p1, p2, c, if edge < 2 then Abs(p2.x - p1.x) else Abs(p2.y - p1.y))
  {
    hide Along, CutAt;
    var c := Crossing(cut, p1, p2, r, edge);
    if edge < 2 {
      AlongIsCut(cut, p1.x, p1.y, p2.x, p2.y, c.x);
      CutIsNear(cut, p1.x, p1.y, p2.x, p2.y, c.x, c.y);
    } else {
      AlongIsCut(cut, p1.y, p1.x, p2.y, p2.x, c.y);
      CutIsNear(cut, p1.y, p1.x, p2.y, p2.x, c.y, c.x);
      var m, n := (c.y - p1.y) * (p2.x - p1.x), (c.x - p1.x) * (p2.y - p1.y);
      assert Abs(m - n) == Abs(n - m);
    }
  }

  // ------------------------------------------------------------- the passes

  /** The vertex before position i, around the polygon */
  function Prior(pts: seq<Coord>, i: nat): Coord
    requires i < |pts|
  {
    if i == 0 then pts[|pts| - 1] else pts[i - 1]
  }

  /** The side of the polygon that ends at position i has its crossing at v. */
  ghost predicate CrossesAt(cut: Cut, s: Coord, p: Coord, v: Coord, r: Rect, edge: int)
    requires 0 <= edge < 4
  {
    || (!Inside(s, r, edge) && Inside(p, r, edge) && Meets(cut, s, p, v, r, edge))
    || (Inside(s, r, edge) && !Inside(p, r, edge) && Meets(cut, p, s, v, r, edge))
  }

  lemma EmitIs(cut: Cut, s: Coord, p: Coord, r: Rect, edge: int)
    requires 0 <= edge < 4
    ensures forall v :: v in Emit(cut, s, p, r, edge) ==>
      (v == p && Inside(p, r, edge)) || CrossesAt(cut, s, p, v, r, edge)
    ensures Inside(p, r, edge) ==> p in Emit(cut, s, p, r, edge)
    ensures Inside(s, r, edge) != Inside(p, r, edge) ==>
      exists v :: v in Emit(cut, s, p, r, edge) && CrossesAt(cut, s, p, v, r, edge)
    ensures |Emit(cut, s, p, r, edge)| ==
      (if Inside(p, r, edge) then 1 else 0) + (if Inside(s, r, edge) != Inside(p, r, edge) then 1 else 0)
  {
    hide Crossing, Meets, Inside;
    if Inside(p, r, edge) != Inside(s, r, edge) {
      CrossingOnLine(cut, s, p, r, edge);
      CrossingOnLine(cut, p, s, r, edge);
      var v := if Inside(p, r, edge) then Crossing(cut, s, p, r, edge) else Crossing(cut, p, s, r, edge);
      assert v in Emit(cut, s, p, r, edge) && CrossesAt(cut, s, p, v, r, edge);
    }
  }

  /** The vertex before position i, with s before the first */
  function PriorFrom(s: Coord, pts: seq<Coord>, i: nat): Coord
    requires i < |pts|
  {
    if i == 0 then s else pts[i - 1]
  }

  /** v comes from position i: it is the vertex there, or where the side that ends there meets the edge. */
  ghost predicate From(cut: Cut, s: Coord, pts: seq<Coord>, v: Coord, r: Rect, edge: int, i: int)
    requires 0 <= edge < 4
  {
    && 0 <= i < |pts|
    && ((v == pts[i] && Inside(pts[i], r, edge)) || CrossesAt(cut, PriorFrom(s, pts, i), pts[i], v, r, edge))
  }

  lemma {:induction false} PassFromIs(cut: Cut, s: Coord, pts: seq<Coord>, r: Rect, edge: int)
    requires 0 <= edge < 4
    ensures forall v :: v in PassFrom(cut, s, pts, r, edge) ==> exists i :: From(cut, s, pts, v, r, edge, i)
    ensures forall i :: 0 <= i < |pts| && Inside(pts[i], r, edge) ==> pts[i] in PassFrom(cut, s, pts, r, edge)
    ensures forall i :: 0 <= i < |pts| && Inside(PriorFrom(s, pts, i), r, edge) != Inside(pts[i], r, edge) ==>
      exists v :: v in PassFrom(cut, s, pts, r, edge) && CrossesAt(cut, PriorFrom(s, pts, i), pts[i], v, r, edge)
    decreases |pts|
  {
    hide Emit, Inside, CrossesAt;
    if pts != [] {
      var p, rest := pts[0], pts[1..];
      EmitIs(cut, s, p, r, edge);
      PassFromIs(cut, p, rest, r, edge);
      var all := PassFrom(cut, s, pts, r, edge);
      assert forall i :: 0 < i < |pts| ==> pts[i] == rest[i - 1] && PriorFrom(s, pts, i) == PriorFrom(p, rest, i - 1);
      assert PriorFrom(s, pts, 0) == s;
      forall v | v in all
        ensures exists i :: From(cut, s, pts, v, r, edge, i)
      {
        if v in Emit(cut, s, p, r, edge) {
          assert From(cut, s, pts, v, r, edge, 0);
        } else {
          var j :| From(cut, p, rest, v, r, edge, j);
          assert From(cut, s, pts, v, r, edge, j + 1);
        }
      }
      forall i | 0 <= i < |pts| && Inside(PriorFrom(s, pts, i), r, edge) != Inside(pts[i], r, edge)
        ensures exists v :: v in all && CrossesAt(cut, PriorFrom(s, pts, i), pts[i], v, r, edge)
      {
        if i == 0 {
          var v :| v in Emit(cut, s, p, r, edge) && CrossesAt(cut, s, p, v, r, edge);
          assert v in all;
        } else {
          var v :|
            v in PassFrom(cut, p, rest, r, edge) && CrossesAt(cut, PriorFrom(p, rest, i - 1), rest[i - 1], v, r, edge);
          assert v in all;
        }
      }
    }
  }

  /**
   * The vertices of a pass are the vertices inside the edge and, for each side of the polygon that crosses it,
   * the point where that side meets the edge; there are no others.
   */
  lemma PassVertices(cut: Cut, pts: seq<Coord>, r: Rect, edge: int)
    requires 0 <= edge < 4
    ensures forall v :: v in Pass(cut, pts, r, edge) ==>
      (v in pts && Inside(v, r, edge)) ||
      exists i :: 0 <= i < |pts| && CrossesAt(cut, Prior(pts, i), pts[i], v, r, edge)
    ensures forall v :: v in pts && Inside(v, r, edge) ==> v in Pass(cut, pts, r, edge)
    ensures forall i :: 0 <= i < |pts| && Inside(Prior(pts, i), r, edge) != Inside(pts[i], r, edge) ==>
      exists v :: v in Pass(cut, pts, r, edge) && CrossesAt(cut, Prior(pts, i), pts[i], v, r, edge)
  {
    hide PassFrom, Inside, CrossesAt;
    if pts != [] {
      var s := pts[|pts| - 1];
      PassFromIs(cut, s, pts, r, edge);
      assert forall i :: 0 <= i < |pts| ==> Prior(pts, i) == PriorFrom(s, pts, i);
      forall v | v in Pass(cut, pts, r, edge) && !(v in pts && Inside(v, r, edge))
        ensures exists i :: 0 <= i < |pts| && CrossesAt(cut, Prior(pts, i), pts[i], v, r, edge)
      {
        var i :| From(cut, s, pts, v, r, edge, i);
        assert CrossesAt(cut, Prior(pts, i), pts[i], v, r, edge);
      }
    }
  }
}
