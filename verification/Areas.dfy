/** Area and centroid of a polygon (navit/geom.c). */
module Areas {
  import opened Wrappers
  import opened CArith
  import opened Coords

  /** The sum of t over neighbours in the sequence. */
  function PairSum(t: (Coord, Coord) -> int, s: seq<Coord>): int {
    if |s| < 2 then 0 else t(s[0], s[1]) + PairSum(t, s[1..])
  }

  /** The sum of t around a polygon: the last vertex is followed by the first. */
  function Around(t: (Coord, Coord) -> int, s: seq<Coord>): int {
    if s == [] then 0 else PairSum(t, s + [s[0]])
  }

  lemma {:induction false} PairSumAppend(t: (Coord, Coord) -> int, s: seq<Coord>, x: Coord)
    requires s != []
    ensures PairSum(t, s + [x]) == PairSum(t, s) + t(s[|s| - 1], x)
    decreases |s|
  {
    if |s| == 1 {
      assert (s + [x])[1..] == [x];
    } else {
      assert (s + [x])[1..] == s[1..] + [x];
      PairSumAppend(t, s[1..], x);
    }
  }

  /** Twice the area below the edge from a to b, with its sign. */
  function Trapezoid(): (Coord, Coord) -> int {
    (a: Coord, b: Coord) => (a.x + b.x) * (a.y - b.y)
  }

  /** The cross product of a and b seen from o. */
  function Cross(o: Coord): (Coord, Coord) -> int {
    (a: Coord, b: Coord) => (a.x - o.x) * (b.y - o.y) - (b.x - o.x) * (a.y - o.y)
  }

  function MomentX(o: Coord): (Coord, Coord) -> int {
    (a: Coord, b: Coord) => ((a.x - o.x) + (b.x - o.x)) * Cross(o)(a, b)
  }

  function MomentY(o: Coord): (Coord, Coord) -> int {
    (a: Coord, b: Coord) => ((a.y - o.y) + (b.y - o.y)) * Cross(o)(a, b)
  }

  function Area(s: seq<Coord>): int {
    Quot(Around(Trapezoid(), s), 2)
  }

  /** The centroid, or none for a polygon without area. */
  function Centroid(s: seq<Coord>): Option<Coord>
    requires s != []
  {
    var o := s[0];
    var area := Around(Cross(o), s);
    if area == 0 then None
    else Some(Coord(o.x + Quot(Quot(Around(MomentX(o), s), 3), area), o.y + Quot(Quot(Around(MomentY(o), s), 3), area)))
  }

  /** geom_poly_area */
  method PolyArea(c: array<Coord>, count: nat) returns (area: int)
    requires count <= c.Length
    ensures area == Area(c[..count])
  {
    ghost var s := c[..count];
    ghost var ring := if count == 0 then [] else s + [s[0]];
    area := 0;
    var j := 0;
    for i := 0 to count
      invariant j == (if count > 0 && i == count then 0 else i)
      invariant count > 0 ==> area == PairSum(Trapezoid(), ring[..i + 1])
      invariant count == 0 ==> area == 0
    {
      j := j + 1;
      if j == count {
        j := 0;
      }
      area := area + (c[i].x + c[j].x) * (c[i].y - c[j].y);
      PairSumAppend(Trapezoid(), ring[..i + 1], ring[i + 1]);
      assert ring[..i + 2] == ring[..i + 1] + [ring[i + 1]];
    }
    assert count > 0 ==> ring[..count + 1] == ring;
    area := Quot(area, 2);
  }

  /** geom_poly_centroid; no result for a polygon without area */
  method PolyCentroid(p: array<Coord>, count: nat) returns (c: Option<Coord>)
    requires 0 < count <= p.Length
    ensures c == Centroid(p[..count])
  {
    ghost var s := p[..count];
    ghost var ring := s + [s[0]];
    var o := p[0];
    var area, sx, sy, j := 0, 0, 0, 0;
    for i := 0 to count
      invariant j == if i == count then 0 else i
      invariant area == PairSum(Cross(o), ring[..i + 1])
      invariant sx == PairSum(MomentX(o), ring[..i + 1]) && sy == PairSum(MomentY(o), ring[..i + 1])
    {
      j := j + 1;
      if j == count {
        j := 0;
      }
      var xi, yi, xj, yj := p[i].x - o.x, p[i].y - o.y, p[j].x - o.x, p[j].y - o.y;
      var tmp := xi * yj - xj * yi;
      sx := sx + (xi + xj) * tmp;
      sy := sy + (yi + yj) * tmp;
      area := area + tmp;
      PairSumAppend(Cross(o), ring[..i + 1], ring[i + 1]);
      PairSumAppend(MomentX(o), ring[..i + 1], ring[i + 1]);
      PairSumAppend(MomentY(o), ring[..i + 1], ring[i + 1]);
      assert ring[..i + 2] == ring[..i + 1] + [ring[i + 1]];
    }
    assert ring[..count + 1] == ring;
    if area != 0 {
      return Some(Coord(o.x + Quot(Quot(sx, 3), area), o.y + Quot(Quot(sy, 3), area)));
    }
    return None;
  }

  // -------------------------------------------------------- the two sums agree

  /** What a trapezoid and a cross product leave over telescopes. */
  function Rest(o: Coord, a: Coord): int { a.x * a.y - o.y * a.x + o.x * a.y }

  lemma TrapezoidPlusCross(o: Coord, a: Coord, b: Coord)
    ensures Trapezoid()(a, b) + Cross(o)(a, b) == Rest(o, a) - Rest(o, b)
  {
  }

  lemma {:induction false} SumsTelescope(o: Coord, s: seq<Coord>)
    requires s != []
    ensures PairSum(Trapezoid(), s) + PairSum(Cross(o), s) == Rest(o, s[0]) - Rest(o, s[|s| - 1])
    decreases |s|
  {
    if |s| > 1 {
      SumsTelescope(o, s[1..]);
      TrapezoidPlusCross(o, s[0], s[1]);
    }
  }

  /** The trapezoid sum of the area is minus the cross-product sum of the centroid, from any origin. */
  lemma TrapezoidIsMinusCross(o: Coord, s: seq<Coord>)
    ensures Around(Trapezoid(), s) == -Around(Cross(o), s)
  {
    if s != [] {
      SumsTelescope(o, s + [s[0]]);
    }
  }

  function Shift(a: Coord, d: Coord): Coord { Coord(a.x + d.x, a.y + d.y) }

  function Shifted(s: seq<Coord>, d: Coord): (r: seq<Coord>)
    ensures |r| == |s| && forall i :: 0 <= i < |s| ==> r[i] == Shift(s[i], d)
  {
    if s == [] then [] else [Shift(s[0], d)] + Shifted(s[1..], d)
  }

  /** A sum over pairs that sees only differences does not notice a shift. */
  lemma {:induction false} PairSumShifted(t: (Coord, Coord) -> int, u: (Coord, Coord) -> int, s: seq<Coord>, d: Coord)
    requires forall a, b :: u(Shift(a, d), Shift(b, d)) == t(a, b)
    ensures PairSum(u, Shifted(s, d)) == PairSum(t, s)
    decreases |s|
  {
    if |s| >= 2 {
      PairSumShifted(t, u, s[1..], d);
      assert Shifted(s, d)[1..] == Shifted(s[1..], d);
    }
  }

  lemma AroundShifted(t: (Coord, Coord) -> int, u: (Coord, Coord) -> int, s: seq<Coord>, d: Coord)
    requires forall a, b :: u(Shift(a, d), Shift(b, d)) == t(a, b)
    ensures Around(u, Shifted(s, d)) == Around(t, s)
  {
    if s != [] {
      PairSumShifted(t, u, s + [s[0]], d);
      assert Shifted(s + [s[0]], d) == Shifted(s, d) + [Shifted(s, d)[0]];
    }
  }

  lemma AreaShifted(s: seq<Coord>, d: Coord)
    ensures Area(Shifted(s, d)) == Area(s)
  {
    var o := Coord(0, 0);
    TrapezoidIsMinusCross(o, s);
    TrapezoidIsMinusCross(Shift(o, d), Shifted(s, d));
    AroundShifted(Cross(o), Cross(Shift(o, d)), s, d);
  }

  /** The centroid moves with the polygon, truncation included, and exists unless the area sum is zero. */
  lemma CentroidShifted(s: seq<Coord>, d: Coord)
    requires s != []
    ensures Centroid(s) == None <==> Around(Trapezoid(), s) == 0
    ensures Centroid(Shifted(s, d)) == if Centroid(s) == None then None else Some(Shift(Centroid(s).value, d))
  {
    var o := s[0];
    TrapezoidIsMinusCross(o, s);
    AroundShifted(Cross(o), Cross(Shift(o, d)), s, d);
    AroundShifted(MomentX(o), MomentX(Shift(o, d)), s, d);
    AroundShifted(MomentY(o), MomentY(Shift(o, d)), s, d);
  }

  /** A sum over pairs whose terms change sign with direction changes sign with the sequence. */
  lemma {:induction false} PairSumReversed(t: (Coord, Coord) -> int, s: seq<Coord>)
    requires forall a, b :: t(a, b) == -t(b, a)
    ensures PairSum(t, Reversed(s)) == -PairSum(t, s)
    decreases |s|
  {
    if |s| >= 2 {
      PairSumReversed(t, s[1..]);
      ReversedAt(s[1..], |s| - 2);
      PairSumAppend(t, Reversed(s[1..]), s[0]);
    }
  }

  /** Running around the polygon the other way negates its area, halving included. */
  lemma AreaReversed(s: seq<Coord>)
    ensures Around(Trapezoid(), Reversed(s)) == -Around(Trapezoid(), s)
    ensures Area(Reversed(s)) == -Area(s)
  {
    if s != [] {
      var t, r := Trapezoid(), Reversed(s);
      PairSumReversed(t, s);
      PairSumAppend(t, s, s[0]);
      PairSumAppend(t, r, r[0]);
      ReversedAt(s, 0);
      ReversedAt(s, |s| - 1);
      QuotNegates(Around(t, s), 2);
    }
  }

  // --------------------------------------------------- what area and centroid are

  ghost predicate Opposite(t: (Coord, Coord) -> int) {
    forall a, b :: t(a, b) == -t(b, a)
  }

  /** Two chains that meet */
  lemma {:induction false} PairSumMeets(t: (Coord, Coord) -> int, a: seq<Coord>, b: seq<Coord>)
    requires a != [] && b != [] && a[|a| - 1] == b[0]
    ensures PairSum(t, a + b[1..]) == PairSum(t, a) + PairSum(t, b)
    decreases |b|
  {
    if |b| == 1 {
      assert a + b[1..] == a;
    } else {
      var next := a + [b[1]];
      PairSumAppend(t, a, b[1]);
      PairSumMeets(t, next, b[1..]);
      assert next + b[1..][1..] == a + b[1..];
    }
  }

  /** A cut from the first vertex to another splits a polygon into two whose sums add up. */
  lemma AroundCut(t: (Coord, Coord) -> int, s: seq<Coord>, k: nat)
    requires Opposite(t) && 0 < k < |s|
    ensures Around(t, s) == Around(t, s[..k + 1]) + Around(t, [s[0]] + s[k..])
  {
    hide PairSum;
    var ring, front, back := s + [s[0]], s[..k + 1], s[k..] + [s[0]];
    assert ring == front + back[1..] by {
      assert s == s[..k + 1] + s[k + 1..];
    }
    PairSumMeets(t, front, back);
    PairSumAppend(t, front, s[0]);
    FirstPair(t, s[0], back);
    assert ([s[0]] + s[k..]) + [s[0]] == [s[0]] + back;
    assert front + [front[0]] == front + [s[0]];
    assert t(s[k], s[0]) == -t(s[0], s[k]);
  }

  lemma FirstPair(t: (Coord, Coord) -> int, x: Coord, s: seq<Coord>)
    requires s != []
    ensures PairSum(t, [x] + s) == t(x, s[0]) + PairSum(t, s)
  {
    assert ([x] + s)[1..] == s;
  }

  lemma SumsAreOpposite(o: Coord)
    ensures Opposite(Trapezoid()) && Opposite(Cross(o)) && Opposite(MomentX(o)) && Opposite(MomentY(o))
  {
    forall a: Coord, b: Coord
      ensures MomentX(o)(a, b) == -MomentX(o)(b, a) && MomentY(o)(a, b) == -MomentY(o)(b, a)
    {
      var c, x, y := Cross(o)(a, b), (a.x - o.x) + (b.x - o.x), (a.y - o.y) + (b.y - o.y);
      assert Cross(o)(b, a) == -c;
      assert x * -c == -(x * c) && y * -c == -(y * c);
    }
  }

  /** A rectangle from its corner o, first along x */
  function Rectangle(o: Coord, w: int, h: int): seq<Coord> {
    [o, Coord(o.x + w, o.y), Coord(o.x + w, o.y + h), Coord(o.x, o.y + h)]
  }

  lemma AroundFour(t: (Coord, Coord) -> int, a: Coord, b: Coord, c: Coord, d: Coord)
    ensures Around(t, [a, b, c, d]) == t(a, b) + t(b, c) + t(c, d) + t(d, a)
  {
    var s := [a, b, c, d, a];
    assert [a, b, c, d] + [a] == s;
    assert s[1..] == [b, c, d, a] && s[1..][1..] == [c, d, a] && s[1..][1..][1..] == [d, a];
    assert PairSum(t, [d, a]) == t(d, a);
    assert PairSum(t, [c, d, a]) == t(c, d) + PairSum(t, [d, a]);
    assert PairSum(t, [b, c, d, a]) == t(b, c) + PairSum(t, [c, d, a]);
  }

  /** A rectangle that turns left has minus width times height as its area. */
  lemma RectangleArea(o: Coord, w: int, h: int)
    ensures Area(Rectangle(o, w, h)) == -(w * h)
  {
    hide PairSum, Around;
    var r := Rectangle(o, w, h);
    AroundFour(Trapezoid(), r[0], r[1], r[2], r[3]);
    var x := o.x + o.x;
    assert Around(Trapezoid(), r) == (x + w + w) * (o.y - (o.y + h)) + (x) * (o.y + h - o.y);
    assert (x + w + w) * -h == -(x * h) - 2 * (w * h);
    HalfOfTwice(-(w * h));
  }

  lemma HalfOfTwice(n: int)
    ensures Quot(2 * n, 2) == n
  {
  }

  /** The centroid of a rectangle is its middle, cut towards the corner it starts from. */
  lemma RectangleCentroid(o: Coord, w: int, h: int)
    requires w != 0 && h != 0
    ensures Centroid(Rectangle(o, w, h)) == Some(Coord(o.x + Quot(w, 2), o.y + Quot(h, 2)))
  {
    hide PairSum, Around, Quot;
    var r, k := Rectangle(o, w, h), w * h;
    AroundFour(Cross(o), r[0], r[1], r[2], r[3]);
    AroundFour(MomentX(o), r[0], r[1], r[2], r[3]);
    AroundFour(MomentY(o), r[0], r[1], r[2], r[3]);
    assert Around(Cross(o), r) == 2 * k;
    assert Around(MomentX(o), r) == (w + w) * k + w * k;
    assert Around(MomentY(o), r) == h * k + (h + h) * k;
    assert k != 0;
    Third(w * k);
    Third(h * k);
    QuotScaled(w, 2, k);
    QuotScaled(h, 2, k);
  }

  lemma Third(n: int)
    ensures Quot(3 * n, 3) == n
  {
  }
}
