/** Clipping polygons to a rectangle, edge by edge (navit/graphics.c and navit/geom.c). */
module Clip {
  import opened CArith
  import opened Coords

  /** The upper left and the lower right corner in screen coordinates. */
  datatype Rect = Rect(lu: Coord, rl: Coord)

  predicate Proper(r: Rect) { r.lu.x <= r.rl.x && r.lu.y <= r.rl.y }

  /** is_inside, for the left, right, upper and lower edge of the rectangle */
  predicate Inside(p: Coord, r: Rect, edge: int) {
    match edge
    case 0 => p.x >= r.lu.x
    case 1 => p.x <= r.rl.x
    case 2 => p.y >= r.lu.y
    case 3 => p.y <= r.rl.y
    case _ => false
  }

  /** The bound that an edge sets, on x for edges 0 and 1 and on y for 2 and 3. */
  function Bound(r: Rect, edge: int): int
    requires 0 <= edge < 4
  {
    if edge == 0 then r.lu.x else if edge == 1 then r.rl.x else if edge == 2 then r.lu.y else r.rl.y
  }

  /**
   * The other coordinate of the line from (u1, v1) to (u2, v2) where the first one is `at`:
   * the exact value, cut to an integer.
   */
  function AlongSum(u1: int, v1: int, u2: int, v2: int, at: int): int
    requires u1 != u2
  {
    Quot(v1 * (u2 - u1) + (at - u1) * (v2 - v1), u2 - u1)
  }

  /** geom_poly_intersection cuts the offset from the first point instead. */
  function AlongOffset(u1: int, v1: int, u2: int, v2: int, at: int): int
    requires u1 != u2
  {
    v1 + Quot((at - u1) * (v2 - v1), u2 - u1)
  }

  /** What is cut to an integer: the coordinate itself, on the screen, or its offset, in maps */
  datatype Cut = OfSum | OfOffset

  function Along(cut: Cut, u1: int, v1: int, u2: int, v2: int, at: int): int
    requires u1 != u2
  {
    match cut
    case OfSum => AlongSum(u1, v1, u2, v2, at)
    case OfOffset => AlongOffset(u1, v1, u2, v2, at)
  }

  /** poly_intersection: where the line from an outside to an inside point crosses an edge */
  function Crossing(cut: Cut, p1: Coord, p2: Coord, r: Rect, edge: int): Coord
    requires 0 <= edge < 4 && Inside(p1, r, edge) != Inside(p2, r, edge)
  {
    var at := Bound(r, edge);
    if edge < 2 then Coord(at, Along(cut, p1.x, p1.y, p2.x, p2.y, at))
    else Coord(Along(cut, p1.y, p1.x, p2.y, p2.x, at), at)
  }

  // --------------------------------------------------- crossings lie between

  lemma ProductBounds(t: int, d: int, w: int)
    requires 0 <= t <= d
    ensures w >= 0 ==> 0 <= t * w <= d * w
    ensures w <= 0 ==> d * w <= t * w <= 0
  {
    if w >= 0 {
      assert d * w - t * w == (d - t) * w;
    } else {
      assert d * w - t * w == (d - t) * w;
    }
  }

  lemma Scale(a: int, b: int, d: int)
    requires d > 0
    ensures a <= b ==> a * d <= b * d
    ensures (a + 1) * d == a * d + d
  {
    assert b * d - a * d == (b - a) * d;
  }

  lemma QuotientBetween(n: nat, d: int, lo: int, hi: int)
    requires d > 0 && lo * d <= n <= hi * d
    ensures lo <= n / d <= hi
  {
    var q := n / d;
    assert n == d * q + n % d;
    assert d * q == q * d;
    Scale(q, q, d);
    Scale(hi, hi, d);
    Scale(q + 1, lo, d);
    Scale(hi + 1, q, d);
  }

  /** Cutting a value between two integers leaves it between them. */
  lemma QuotBetween(n: int, d: int, lo: int, hi: int)
    requires d > 0 && lo * d <= n <= hi * d
    ensures lo <= Quot(n, d) <= hi
  {
    if n >= 0 {
      QuotientBetween(n, d, lo, hi);
    } else {
      assert (-lo) * d == -(lo * d) && (-hi) * d == -(hi * d);
      QuotientBetween(-n, d, -hi, -lo);
    }
  }

  lemma SumBetweenUp(u1: int, v1: int, u2: int, v2: int, at: int)
    requires u1 < u2 && u1 <= at <= u2
    ensures v1 <= AlongSum(u1, v1, u2, v2, at) <= v2 || v2 <= AlongSum(u1, v1, u2, v2, at) <= v1
  {
    var d, w := u2 - u1, v2 - v1;
    ProductBounds(at - u1, d, w);
    assert v2 * d == v1 * d + d * w;
    QuotBetween(v1 * d + (at - u1) * w, d, if w >= 0 then v1 else v2, if w >= 0 then v2 else v1);
  }

  lemma QuotBothNegated(n: int, d: int)
    requires d != 0
    ensures Quot(-n, -d) == Quot(n, d)
  {
    assert Abs(-n) == Abs(n) && Abs(-d) == Abs(d);
    if n == 0 {
      assert Abs(n) / Abs(d) == 0;
    }
    var q := Abs(n) / Abs(d);
    assert Quot(-n, -d) == Signed(q, (-n < 0) == (-d < 0));
    assert Quot(n, d) == Signed(q, (n < 0) == (d < 0));
  }

  /** The crossing has its other coordinate between those of the two ends. */
  lemma SumBetween(u1: int, v1: int, u2: int, v2: int, at: int)
    requires u1 != u2 && (u1 <= at <= u2 || u2 <= at <= u1)
    ensures v1 <= AlongSum(u1, v1, u2, v2, at) <= v2 || v2 <= AlongSum(u1, v1, u2, v2, at) <= v1
  {
    if u1 < u2 {
      SumBetweenUp(u1, v1, u2, v2, at);
    } else {
      SumMirrored(u1, v1, u2, v2, at);
      SumBetweenUp(-u1, v1, -u2, v2, -at);
    }
  }

  lemma SumMirrored(u1: int, v1: int, u2: int, v2: int, at: int)
    requires u1 != u2
    ensures AlongSum(u1, v1, u2, v2, at) == AlongSum(-u1, v1, -u2, v2, -at)
  {
    var n, d := v1 * (u2 - u1) + (at - u1) * (v2 - v1), u2 - u1;
    QuotBothNegated(n, d);
    assert v1 * (-u2 - -u1) == -(v1 * (u2 - u1));
    assert (-at - -u1) * (v2 - v1) == -((at - u1) * (v2 - v1));
  }

  /** That crossing lies between the ends as well. */
  lemma OffsetBetween(u1: int, v1: int, u2: int, v2: int, at: int)
    requires u1 != u2 && (u1 <= at <= u2 || u2 <= at <= u1)
    ensures v1 <= AlongOffset(u1, v1, u2, v2, at) <= v2 || v2 <= AlongOffset(u1, v1, u2, v2, at) <= v1
  {
    SumBetween(u1, 0, u2, v2 - v1, at);
    assert 0 * (u2 - u1) == 0;
  }

  lemma AlongBetween(cut: Cut, u1: int, v1: int, u2: int, v2: int, at: int)
    requires u1 != u2 && (u1 <= at <= u2 || u2 <= at <= u1)
    ensures v1 <= Along(cut, u1, v1, u2, v2, at) <= v2 || v2 <= Along(cut, u1, v1, u2, v2, at) <= v1
  {
    SumBetween(u1, v1, u2, v2, at);
    OffsetBetween(u1, v1, u2, v2, at);
  }

  /** A crossing is on its edge, and on the inner side of every edge that both ends respect. */
  lemma CrossingInside(cut: Cut, p1: Coord, p2: Coord, r: Rect, edge: int, other: int)
    requires Proper(r) && 0 <= edge < 4 && 0 <= other < 4 && Inside(p1, r, edge) != Inside(p2, r, edge)
    ensures Inside(Crossing(cut, p1, p2, r, edge), r, edge)
    ensures Inside(p1, r, other) && Inside(p2, r, other) ==> Inside(Crossing(cut, p1, p2, r, edge), r, other)
    ensures !Inside(p1, r, other) && !Inside(p2, r, other) ==> !Inside(Crossing(cut, p1, p2, r, edge), r, other)
  {
    hide Along;
    if edge < 2 {
      AlongBetween(cut, p1.x, p1.y, p2.x, p2.y, Bound(r, edge));
    } else {
      AlongBetween(cut, p1.y, p1.x, p2.y, p2.x, Bound(r, edge));
    }
  }

  // ------------------------------------------------------------- the passes

  /** What a vertex p after a vertex s contributes to one pass. */
  function Emit(cut: Cut, s: Coord, p: Coord, r: Rect, edge: int): seq<Coord>
    requires 0 <= edge < 4
  {
    if Inside(p, r, edge) then
      (if !Inside(s, r, edge) then [Crossing(cut, s, p, r, edge)] else []) + [p]
    else if Inside(s, r, edge) then [Crossing(cut, p, s, r, edge)]
    else []
  }

  function PassFrom(cut: Cut, s: Coord, pts: seq<Coord>, r: Rect, edge: int): seq<Coord>
    requires 0 <= edge < 4
    decreases |pts|
  {
    if pts == [] then [] else Emit(cut, s, pts[0], r, edge) + PassFrom(cut, pts[0], pts[1..], r, edge)
  }

  /** Clipping at one edge; the vertex before the first one is the last one. */
  function Pass(cut: Cut, pts: seq<Coord>, r: Rect, edge: int): seq<Coord>
    requires 0 <= edge < 4
  {
    if pts == [] then [] else PassFrom(cut, pts[|pts| - 1], pts, r, edge)
  }

  /** Clipping at the first `edges` edges. */
  function Clipped(cut: Cut, pts: seq<Coord>, r: Rect, edges: nat): seq<Coord>
    requires edges <= 4
  {
    if edges == 0 then pts else Pass(cut, Clipped(cut, pts, r, edges - 1), r, edges - 1)
  }

  // --------------------------------------------------------------- capacity

  function InsideCount(p: Coord, r: Rect, edge: int): nat {
    if Inside(p, r, edge) then 1 else 0
  }

  lemma {:induction false} PassFromLength(cut: Cut, s: Coord, pts: seq<Coord>, r: Rect, edge: int)
    requires 0 <= edge < 4 && pts != []
    ensures 2 * |PassFrom(cut, s, pts, r, edge)|
      <= 3 * |pts| + InsideCount(pts[|pts| - 1], r, edge) - InsideCount(s, r, edge)
    decreases |pts|
  {
    hide Crossing;
    if |pts| > 1 {
      PassFromLength(cut, pts[0], pts[1..], r, edge);
    } else {
      assert PassFrom(cut, pts[0], pts[1..], r, edge) == [];
    }
  }

  /** One pass adds at most half: around a polygon, entries and exits come in pairs. */
  lemma PassLength(cut: Cut, pts: seq<Coord>, r: Rect, edge: int)
    requires 0 <= edge < 4
    ensures 2 * |Pass(cut, pts, r, edge)| <= 3 * |pts|
  {
    if pts != [] {
      PassFromLength(cut, pts[|pts| - 1], pts, r, edge);
    }
  }

  /** Every intermediate and the final polygon fit the buffers of eight points per vertex and one. */
  lemma ClippedFits(cut: Cut, pts: seq<Coord>, r: Rect, edges: nat)
    requires edges <= 4
    ensures |Clipped(cut, pts, r, edges)| <= 8 * |pts|
    ensures edges < 4 ==> 3 * |Clipped(cut, pts, r, edges)| <= 2 * 8 * |pts|
    ensures 16 * |Clipped(cut, pts, r, 4)| <= 81 * |pts|
  {
    hide Clipped;
    ClippedStep(cut, pts, r, 0);
    ClippedStep(cut, pts, r, 1);
    ClippedStep(cut, pts, r, 2);
    ClippedStep(cut, pts, r, 3);
  }

  lemma ClippedStep(cut: Cut, pts: seq<Coord>, r: Rect, edges: nat)
    requires edges < 4
    ensures 2 * |Clipped(cut, pts, r, edges + 1)| <= 3 * |Clipped(cut, pts, r, edges)|
    ensures Clipped(cut, pts, r, 0) == pts
  {
    hide Pass;
    PassLength(cut, Clipped(cut, pts, r, edges), r, edges);
  }

  // ------------------------------------------------------------ correctness

  ghost predicate AllInside(pts: seq<Coord>, r: Rect, edge: int) {
    forall i :: 0 <= i < |pts| ==> Inside(pts[i], r, edge)
  }

  ghost predicate AllOutside(pts: seq<Coord>, r: Rect, edge: int) {
    forall i :: 0 <= i < |pts| ==> !Inside(pts[i], r, edge)
  }

  lemma EmitSide(cut: Cut, s: Coord, p: Coord, r: Rect, edge: int, other: int)
    requires Proper(r) && 0 <= edge < 4 && 0 <= other < 4
    ensures AllInside(Emit(cut, s, p, r, edge), r, edge)
    ensures Inside(s, r, other) && Inside(p, r, other) ==> AllInside(Emit(cut, s, p, r, edge), r, other)
    ensures !Inside(s, r, other) && !Inside(p, r, other) ==> AllOutside(Emit(cut, s, p, r, edge), r, other)
  {
    hide Crossing, Inside;
    if Inside(p, r, edge) != Inside(s, r, edge) {
      CrossingInside(cut, s, p, r, edge, other);
      CrossingInside(cut, p, s, r, edge, other);
    }
  }

  lemma {:induction false} PassFromSide(cut: Cut, s: Coord, pts: seq<Coord>, r: Rect, edge: int, other: int)
    requires Proper(r) && 0 <= edge < 4 && 0 <= other < 4
    ensures AllInside(PassFrom(cut, s, pts, r, edge), r, edge)
    ensures Inside(s, r, other) && AllInside(pts, r, other) ==> AllInside(PassFrom(cut, s, pts, r, edge), r, other)
    ensures !Inside(s, r, other) && AllOutside(pts, r, other) ==> AllOutside(PassFrom(cut, s, pts, r, edge), r, other)
    decreases |pts|
  {
    hide Emit, Inside;
    if pts != [] {
      EmitSide(cut, s, pts[0], r, edge, other);
      PassFromSide(cut, pts[0], pts[1..], r, edge, other);
    }
  }

  /** A pass establishes its edge, and keeps polygons on either side of any other edge there. */
  lemma PassSide(cut: Cut, pts: seq<Coord>, r: Rect, edge: int, other: int)
    requires Proper(r) && 0 <= edge < 4 && 0 <= other < 4
    ensures AllInside(Pass(cut, pts, r, edge), r, edge)
    ensures AllInside(pts, r, other) ==> AllInside(Pass(cut, pts, r, edge), r, other)
    ensures AllOutside(pts, r, other) ==> AllOutside(Pass(cut, pts, r, edge), r, other)
  {
    hide Inside;
    if pts != [] {
      PassFromSide(cut, pts[|pts| - 1], pts, r, edge, other);
    }
  }

  /** Main result: every vertex of the clipped polygon lies in the rectangle. */
  lemma {:induction false} ClippedInside(cut: Cut, pts: seq<Coord>, r: Rect, edges: nat, edge: nat)
    requires Proper(r) && edge < edges <= 4
    ensures AllInside(Clipped(cut, pts, r, edges), r, edge)
    decreases edges
  {
    hide Pass, Inside;
    PassSide(cut, Clipped(cut, pts, r, edges - 1), r, edges - 1, edge);
    if edge < edges - 1 {
      ClippedInside(cut, pts, r, edges - 1, edge);
    }
  }

  /** A polygon that lies beyond one edge is clipped to nothing. */
  lemma {:induction false} BeyondClippedAway(cut: Cut, pts: seq<Coord>, r: Rect, edge: nat)
    requires Proper(r) && edge < 4 && AllOutside(pts, r, edge)
    ensures Clipped(cut, pts, r, 4) == []
  {
    hide Pass, Inside;
    for k := 0 to edge
      invariant AllOutside(Clipped(cut, pts, r, k), r, edge)
    {
      PassSide(cut, Clipped(cut, pts, r, k), r, k, edge);
    }
    for k := edge to 4
      invariant k > edge ==> Clipped(cut, pts, r, k) == []
    {
      if k == edge {
        PassSide(cut, Clipped(cut, pts, r, k), r, k, edge);
        NothingOnBothSides(Clipped(cut, pts, r, k + 1), r, edge);
      } else {
        PassNothing(cut, r, k);
      }
    }
  }

  lemma NothingOnBothSides(pts: seq<Coord>, r: Rect, edge: int)
    ensures pts != [] && AllInside(pts, r, edge) ==> !AllOutside(pts, r, edge)
  {
    if pts != [] && AllInside(pts, r, edge) {
      assert Inside(pts[0], r, edge);
    }
  }

  lemma PassNothing(cut: Cut, r: Rect, edge: int)
    requires 0 <= edge < 4
    ensures Pass(cut, [], r, edge) == []
  {
  }

  lemma {:induction false} PassFromUnchanged(cut: Cut, s: Coord, pts: seq<Coord>, r: Rect, edge: int)
    requires 0 <= edge < 4 && Inside(s, r, edge) && AllInside(pts, r, edge)
    ensures PassFrom(cut, s, pts, r, edge) == pts
    decreases |pts|
  {
    hide Inside;
    if pts != [] {
      PassFromUnchanged(cut, pts[0], pts[1..], r, edge);
    }
  }

  /** A polygon inside the rectangle comes back as it was. */
  lemma {:induction false} InsideUnchanged(cut: Cut, pts: seq<Coord>, r: Rect, edges: nat)
    requires edges <= 4 && forall e :: 0 <= e < 4 ==> AllInside(pts, r, e)
    ensures Clipped(cut, pts, r, edges) == pts
  {
    hide Inside;
    if edges > 0 {
      InsideUnchanged(cut, pts, r, edges - 1);
      assert AllInside(pts, r, edges - 1);
      if pts != [] {
        PassFromUnchanged(cut, pts[|pts| - 1], pts, r, edges - 1);
      }
    }
  }

  /** Whether a is b with some elements left out. */
  predicate Within(a: seq<Coord>, b: seq<Coord>) {
    if a == [] then true
    else b != [] && (if a[0] == b[0] then Within(a[1..], b[1..]) else Within(a, b[1..]))
  }

  lemma {:induction false} WithinTail(a: seq<Coord>, b: seq<Coord>)
    requires a != [] && Within(a, b)
    ensures Within(a[1..], b)
    decreases |b|
  {
    if a[0] == b[0] {
      if |a| > 1 && a[1] == b[0] {
        WithinTail(a[1..], b[1..]);
      }
    } else {
      WithinTail(a, b[1..]);
      if |a| > 1 && a[1] == b[0] {
        WithinTail(a[1..], b[1..]);
      }
    }
  }

  lemma WithinCons(a: seq<Coord>, x: Coord, b: seq<Coord>)
    requires Within(a, b)
    ensures Within(a, [x] + b)
  {
    assert ([x] + b)[1..] == b;
    if a != [] && a[0] == x {
      WithinTail(a, b);
    }
  }

  lemma {:induction false} WithinPassFrom(cut: Cut, a: seq<Coord>, s: Coord, b: seq<Coord>, r: Rect, edge: int)
    requires 0 <= edge < 4 && Within(a, b) && AllInside(a, r, edge)
    ensures Within(a, PassFrom(cut, s, b, r, edge))
    decreases |b|
  {
    hide Inside, Crossing;
    if a != [] {
      var p, rest := b[0], PassFrom(cut, b[0], b[1..], r, edge);
      var a' := if a[0] == p then a[1..] else a;
      assert a[0] == p ==> Inside(p, r, edge);
      WithinPassFrom(cut, a', p, b[1..], r, edge);
      assert ([p] + rest)[1..] == rest;
      if Inside(p, r, edge) {
        if a[0] != p {
          WithinCons(a, p, rest);
        }
        assert Within(a, [p] + rest);
        if !Inside(s, r, edge) {
          WithinCons(a, Crossing(cut, s, p, r, edge), [p] + rest);
          assert Emit(cut, s, p, r, edge) + rest == [Crossing(cut, s, p, r, edge)] + ([p] + rest);
        } else {
          assert Emit(cut, s, p, r, edge) == [p];
        }
      } else if Inside(s, r, edge) {
        WithinCons(a, Crossing(cut, p, s, r, edge), rest);
      } else {
        assert Emit(cut, s, p, r, edge) + rest == rest;
      }
    }
  }

  /** The vertices inside the rectangle, in their order. */
  function Survivors(pts: seq<Coord>, r: Rect): (s: seq<Coord>)
    ensures forall i :: 0 <= i < |s| ==> forall e :: 0 <= e < 4 ==> Inside(s[i], r, e)
  {
    if pts == [] then []
    else if Inside(pts[0], r, 0) && Inside(pts[0], r, 1) && Inside(pts[0], r, 2) && Inside(pts[0], r, 3) then
      [pts[0]] + Survivors(pts[1..], r)
    else Survivors(pts[1..], r)
  }

  lemma {:induction false} SurvivorsWithin(pts: seq<Coord>, r: Rect)
    ensures Within(Survivors(pts, r), pts)
    decreases |pts|
  {
    hide Inside;
    if pts != [] {
      SurvivorsWithin(pts[1..], r);
      var s := Survivors(pts[1..], r);
      assert ([pts[0]] + s)[1..] == s;
      WithinCons(s, pts[0], pts[1..]);
      assert [pts[0]] + pts[1..] == pts;
    }
  }

  /** Clipping loses no vertex that is inside, and keeps those in order. */
  lemma {:induction false} SurvivorsKept(cut: Cut, pts: seq<Coord>, r: Rect, edges: nat)
    requires edges <= 4
    ensures Within(Survivors(pts, r), Clipped(cut, pts, r, edges))
  {
    hide Inside, PassFrom;
    if edges == 0 {
      SurvivorsWithin(pts, r);
    } else {
      SurvivorsKept(cut, pts, r, edges - 1);
      var b := Clipped(cut, pts, r, edges - 1);
      if b != [] {
        WithinPassFrom(cut, Survivors(pts, r), b[|b| - 1], b, r, edges - 1);
      }
    }
  }
}
