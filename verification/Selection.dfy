/**
 * Map selections: whether a point, a polyline or a polygon is in one (navit/map.h), and the same for
 * an item whose coordinates are read in pieces (navit/item.c).
 */
module Selection {
  import opened Coords

  /** A rectangle by its left upper and right lower corner; y grows upwards. */
  datatype Rect = Rect(lu: Coord, rl: Coord)

  predicate Upright(r: Rect) { r.lu.x <= r.rl.x && r.lu.y >= r.rl.y }

  predicate Inside(c: Coord, r: Rect) { r.lu.x <= c.x <= r.rl.x && r.rl.y <= c.y <= r.lu.y }

  predicate Overlap(a: Rect, b: Rect) {
    a.lu.x <= b.rl.x && a.rl.x >= b.lu.x && a.lu.y >= b.rl.y && a.rl.y <= b.lu.y
  }

  /** Upright rectangles overlap exactly if they have a point in common. */
  lemma OverlapIsCommonPoint(a: Rect, b: Rect)
    requires Upright(a) && Upright(b)
    ensures Overlap(a, b) <==> exists c :: Inside(c, a) && Inside(c, b)
  {
    var c := Coord(if a.lu.x < b.lu.x then b.lu.x else a.lu.x, if a.rl.y < b.rl.y then b.rl.y else a.rl.y);
    if Overlap(a, b) {
      assert Inside(c, a) && Inside(c, b);
    }
  }

  /** A selection is a list of rectangles; the empty one stands for everything. */
  type Selection = seq<Rect>

  predicate AllUpright(sel: Selection) { forall i :: 0 <= i < |sel| ==> Upright(sel[i]) }

  predicate Meets(sel: Selection, r: Rect) { exists i :: 0 <= i < |sel| && Overlap(r, sel[i]) }

  /** The smallest rectangle around coordinates: none outside, and every side touched */
  ghost predicate Bounds(cs: seq<Coord>, r: Rect) {
    && (forall i :: 0 <= i < |cs| ==> Inside(cs[i], r))
    && (exists i :: 0 <= i < |cs| && cs[i].x == r.lu.x)
    && (exists i :: 0 <= i < |cs| && cs[i].x == r.rl.x)
    && (exists i :: 0 <= i < |cs| && cs[i].y == r.lu.y)
    && (exists i :: 0 <= i < |cs| && cs[i].y == r.rl.y)
  }

  function Extended(r: Rect, c: Coord): Rect {
    Rect(Coord(if c.x < r.lu.x then c.x else r.lu.x, if c.y > r.lu.y then c.y else r.lu.y),
         Coord(if c.x > r.rl.x then c.x else r.rl.x, if c.y < r.rl.y then c.y else r.rl.y))
  }

  lemma BoundsOne(c: Coord)
    ensures Bounds([c], Rect(c, c))
  {
    assert [c][0] == c;
  }

  lemma BoundsExtended(cs: seq<Coord>, r: Rect, c: Coord)
    requires Bounds(cs, r)
    ensures Bounds(cs + [c], Extended(r, c))
  {
    var more := cs + [c];
    assert more[|cs|] == c && forall i :: 0 <= i < |cs| ==> more[i] == cs[i];
    var e := Extended(r, c);
    Touched(cs, r, c);
    forall i | 0 <= i < |more|
      ensures Inside(more[i], e)
    {
      assert i < |cs| ==> Inside(cs[i], r);
    }
  }

  lemma Touched(cs: seq<Coord>, r: Rect, c: Coord)
    requires Bounds(cs, r)
    ensures var e, more := Extended(r, c), cs + [c];
      && (exists i :: 0 <= i < |more| && more[i].x == e.lu.x) && (exists i :: 0 <= i < |more| && more[i].x == e.rl.x)
      && (exists i :: 0 <= i < |more| && more[i].y == e.lu.y) && (exists i :: 0 <= i < |more| && more[i].y == e.rl.y)
  {
    var more := cs + [c];
    var a :| 0 <= a < |cs| && cs[a].x == r.lu.x;
    var b :| 0 <= b < |cs| && cs[b].x == r.rl.x;
    var d :| 0 <= d < |cs| && cs[d].y == r.lu.y;
    var e :| 0 <= e < |cs| && cs[e].y == r.rl.y;
    assert more[a] == cs[a] && more[b] == cs[b] && more[d] == cs[d] && more[e] == cs[e] && more[|cs|] == c;
  }

  lemma BoundsUnique(cs: seq<Coord>, r: Rect, s: Rect)
    requires Bounds(cs, r) && Bounds(cs, s)
    ensures r == s
  {
  }

  /** More coordinates have larger bounds. */
  lemma BoundsGrow(cs: seq<Coord>, more: seq<Coord>, r: Rect, s: Rect)
    requires Bounds(cs, r) && Bounds(cs + more, s)
    ensures s.lu.x <= r.lu.x && r.rl.x <= s.rl.x && s.rl.y <= r.rl.y && r.lu.y <= s.lu.y
  {
    forall i | 0 <= i < |cs|
      ensures Inside(cs[i], s)
    {
      assert (cs + more)[i] == cs[i];
    }
  }

  lemma MeetsGrow(sel: Selection, r: Rect, s: Rect)
    requires s.lu.x <= r.lu.x && r.rl.x <= s.rl.x && s.rl.y <= r.rl.y && r.lu.y <= s.lu.y
    ensures Meets(sel, r) ==> Meets(sel, s)
  {
    if Meets(sel, r) {
      var i :| 0 <= i < |sel| && Overlap(r, sel[i]);
      assert Overlap(s, sel[i]);
    }
  }

  // ------------------------------------------------------ what is selected

  ghost predicate PointIn(sel: Selection, c: Coord) {
    sel == [] || exists i :: 0 <= i < |sel| && Inside(c, sel[i])
  }

  /** Some edge has bounds that overlap a rectangle of the selection. */
  ghost predicate PolylineIn(sel: Selection, cs: seq<Coord>) {
    sel == [] || exists k :: 0 <= k < |cs| - 1 && EdgeIn(sel, cs, k)
  }

  ghost predicate EdgeIn(sel: Selection, cs: seq<Coord>, k: nat)
    requires k + 1 < |cs|
  {
    exists r :: Bounds(cs[k..k + 2], r) && Meets(sel, r)
  }

  /** The bounds of all vertices overlap a rectangle of the selection. */
  ghost predicate PolygonIn(sel: Selection, cs: seq<Coord>) {
    sel == [] || exists r :: Bounds(cs, r) && Meets(sel, r)
  }

  /** A polyline with a vertex in the selection is in it. */
  lemma PointImpliesPolyline(sel: Selection, cs: seq<Coord>, k: nat)
    requires k < |cs| && |cs| >= 2 && PointIn(sel, cs[k])
    ensures PolylineIn(sel, cs)
  {
    if sel != [] {
      var j := if k == |cs| - 1 then k - 1 else k;
      var r := Extended(Rect(cs[j], cs[j]), cs[j + 1]);
      BoundsOne(cs[j]);
      BoundsExtended([cs[j]], Rect(cs[j], cs[j]), cs[j + 1]);
      assert cs[j..j + 2] == [cs[j]] + [cs[j + 1]];
      var i :| 0 <= i < |sel| && Inside(cs[k], sel[i]);
      assert Overlap(r, sel[i]);
      assert Bounds(cs[j..j + 2], r) && Meets(sel, r);
      assert EdgeIn(sel, cs, j);
    }
  }

  lemma {:induction false} BoundsExist(cs: seq<Coord>) returns (r: Rect)
    requires cs != []
    ensures Bounds(cs, r)
  {
    if |cs| == 1 {
      BoundsOne(cs[0]);
      assert cs == [cs[0]];
      r := Rect(cs[0], cs[0]);
    } else {
      var init, c := cs[..|cs| - 1], cs[|cs| - 1];
      var s := BoundsExist(init);
      BoundsExtended(init, s, c);
      assert cs == init + [c];
      r := Extended(s, c);
    }
  }

  /** A polygon whose outline is in the selection is in it. */
  lemma PolylineImpliesPolygon(sel: Selection, cs: seq<Coord>)
    requires PolylineIn(sel, cs)
    ensures PolygonIn(sel, cs)
  {
    if sel != [] {
      var k :| 0 <= k < |cs| - 1 && EdgeIn(sel, cs, k);
      var r :| Bounds(cs[k..k + 2], r) && Meets(sel, r);
      var s := BoundsExist(cs);
      assert cs[k..k + 2][0] == cs[k] && cs[k..k + 2][1] == cs[k + 1];
      MeetsGrow(sel, r, s);
    }
  }

  /** For a single vertex, being in the selection as a point and as a polygon is the same. */
  lemma PointIsPolygon(sel: Selection, c: Coord)
    ensures PointIn(sel, c) <==> PolygonIn(sel, [c])
  {
    BoundsOne(c);
    if PolygonIn(sel, [c]) && sel != [] {
      var r :| Bounds([c], r) && Meets(sel, r);
      BoundsUnique([c], r, Rect(c, c));
      var i :| 0 <= i < |sel| && Overlap(r, sel[i]);
      assert Inside(c, sel[i]);
    }
    if PointIn(sel, c) && sel != [] {
      var i :| 0 <= i < |sel| && Inside(c, sel[i]);
      assert Overlap(Rect(c, c), sel[i]);
    }
  }

  /** map_selection_contains_point */
  method ContainsPoint(sel: Selection, c: Coord) returns (r: bool)
    ensures r <==> PointIn(sel, c)
  {
    for i := 0 to |sel|
      invariant forall k :: 0 <= k < i ==> !Inside(c, sel[k])
    {
      var s := sel[i];
      if c.x >= s.lu.x && c.x <= s.rl.x && c.y <= s.lu.y && c.y >= s.rl.y {
        assert Inside(c, sel[i]);
        return true;
      }
    }
    r := sel == [];
  }

  /** map_selection_contains_polyline */
  method ContainsPolyline(sel: Selection, c: seq<Coord>) returns (r: bool)
    ensures r <==> PolylineIn(sel, c)
  {
    if sel == [] {
      return true;
    }
    for i := 0 to if |c| == 0 then 0 else |c| - 1
      invariant forall k :: 0 <= k < i ==> !EdgeIn(sel, c, k)
    {
      var xMi, xMa, yMi, yMa := c[i].x, c[i].x, c[i].y, c[i].y;
      if c[i + 1].x < xMi {
        xMi := c[i + 1].x;
      }
      if c[i + 1].x > xMa {
        xMa := c[i + 1].x;
      }
      if c[i + 1].y < yMi {
        yMi := c[i + 1].y;
      }
      if c[i + 1].y > yMa {
        yMa := c[i + 1].y;
      }
      ghost var edge := Rect(Coord(xMi, yMa), Coord(xMa, yMi));
      EdgeBounds(c, i);
      for k := 0 to |sel|
        invariant forall l :: 0 <= l < k ==> !Overlap(edge, sel[l])
      {
        if xMi <= sel[k].rl.x && xMa >= sel[k].lu.x && yMa >= sel[k].rl.y && yMi <= sel[k].lu.y {
          assert Overlap(edge, sel[k]);
          assert Bounds(c[i..i + 2], edge) && Meets(sel, edge);
          assert EdgeIn(sel, c, i);
          return true;
        }
      }
      forall e | Bounds(c[i..i + 2], e)
        ensures !Meets(sel, e)
      {
        BoundsUnique(c[i..i + 2], e, edge);
      }
    }
    r := false;
  }

  lemma EdgeBounds(c: seq<Coord>, i: nat)
    requires i + 1 < |c|
    ensures Bounds(c[i..i + 2], Extended(Rect(c[i], c[i]), c[i + 1]))
  {
    BoundsOne(c[i]);
    BoundsExtended([c[i]], Rect(c[i], c[i]), c[i + 1]);
    assert c[i..i + 2] == [c[i]] + [c[i + 1]];
  }

  /** map_selection_contains_rect */
  method ContainsRect(sel: Selection, rect: Rect) returns (r: bool)
    requires Upright(rect) && AllUpright(sel)
    ensures r <==> sel == [] || Meets(sel, rect)
  {
    if sel == [] {
      return true;
    }
    for i := 0 to |sel|
      invariant forall k :: 0 <= k < i ==> !Overlap(rect, sel[k])
    {
      var sr := sel[i];
      if rect.lu.x <= sr.rl.x && rect.rl.x >= sr.lu.x && rect.lu.y >= sr.rl.y && rect.rl.y <= sr.lu.y {
        assert Overlap(rect, sel[i]);
        return true;
      }
    }
    r := false;
  }

  /** map_selection_contains_polygon */
  method ContainsPolygon(sel: Selection, c: seq<Coord>) returns (r: bool)
    requires AllUpright(sel)
    ensures r <==> PolygonIn(sel, c)
  {
    if sel == [] {
      return true;
    }
    if |c| == 0 {
      return false;
    }
    var box := Rect(c[0], c[0]);
    BoundsOne(c[0]);
    assert c[..1] == [c[0]];
    for i := 1 to |c|
      invariant Bounds(c[..i], box)
    {
      BoundsExtended(c[..i], box, c[i]);
      assert c[..i + 1] == c[..i] + [c[i]];
      box := Extend(box, c[i]);
    }
    assert c[..|c|] == c;
    r := ContainsRect(sel, box);
    if PolygonIn(sel, c) {
      var s :| Bounds(c, s) && Meets(sel, s);
      BoundsUnique(c, s, box);
    }
  }

  /** The tests of the loop for one coordinate */
  method Extend(r: Rect, c: Coord) returns (e: Rect)
    ensures e == Extended(r, c)
  {
    e := r;
    if c.x < e.lu.x {
      e := Rect(Coord(c.x, e.lu.y), e.rl);
    }
    if c.x > e.rl.x {
      e := Rect(e.lu, Coord(c.x, e.rl.y));
    }
    if c.y < e.rl.y {
      e := Rect(e.lu, Coord(e.rl.x, c.y));
    }
    if c.y > e.lu.y {
      e := Rect(Coord(e.lu.x, c.y), e.rl);
    }
  }

  // ----------------------------------------------------- reading in pieces

  /** A map item and how many of its coordinates were read */
  class Item {
    const coords: seq<Coord>
    var at: nat

    predicate Valid()
      reads this
    {
      at <= |coords|
    }

    function Left(): seq<Coord>
      requires Valid()
      reads this
    {
      coords[at..]
    }

    /** item_coord_get: the next coordinates, as many as are left */
    method CoordGet(c: array<Coord>, count: nat) returns (n: nat)
      requires Valid() && count <= c.Length
      modifies this, c
      ensures Valid() && n == (if count < |old(Left())| then count else |old(Left())|)
      ensures c[..n] == old(Left())[..n] && Left() == old(Left())[n..]
      ensures forall k :: n <= k < c.Length ==> c[k] == old(c[k])
    {
      n := 0;
      while n < count && at < |coords|
        invariant Valid() && n <= count && at == old(at) + n
        invariant forall k :: 0 <= k < n ==> c[k] == coords[old(at) + k]
        invariant forall k :: n <= k < c.Length ==> c[k] == old(c[k])
        decreases count - n
      {
        c[n] := coords[at];
        n, at := n + 1, at + 1;
      }
    }

    /**
     * item_coord_get_within_selection: scans what is left piece by piece and stops early; still it answers
     * for all coordinates, and a result below the size of the buffer means the buffer holds them all.
     */
    method WithinSelection(c: array<Coord>, count: nat, sel: Selection) returns (ret: nat)
      requires Valid() && count <= c.Length
      modifies this, c
      ensures Valid()
      ensures count >= 2 ==> (ret != 0 <==> sel != [] && PolygonIn(sel, old(Left())))
      ensures count == 1 ==> (ret != 0 <==> sel != [] && old(Left()) != [] && PointIn(sel, old(Left())[0]))
      ensures ret != 0 ==> ret == if count < |old(Left())| then count else |old(Left())|
      ensures 0 < ret < count ==> c[..ret] == old(Left())
    {
      hide Meets, Bounds, PolygonIn, PointIn;
      ret := 0;
      var bbox, intersects := Rect(Coord(0, 0), Coord(0, 0)), false;
      ghost var all, done := Left(), 0;
      while !intersects
        invariant Valid() && done <= |all| && Left() == all[done..]
        invariant ret == (if done == 0 then 0 else if count < |all| then count else |all|) && (done > 0 ==> count > 0)
        invariant done > 0 ==> Bounds(all[..done], bbox) && (intersects <==> Meets(sel, bbox))
        invariant 0 < ret < count ==> c[..ret] == all && done == |all|
        invariant count == 1 ==> done == 0
        invariant intersects ==> done > 0
        decreases |all| - done, !intersects
      {
        var inCoords := CoordGet(c, count);
        if inCoords == 0 {
          assert done == |all| || count == 0;
          break;
        }
        assert all[done..][..inCoords] == all[done..done + inCoords];
        assert all[..done] + all[done..done + inCoords] == all[..done + inCoords];
        if ret == 0 {
          ret := inCoords;
          bbox := Rect(c[0], c[0]);
        }
        bbox := Widen(c, inCoords, bbox, all[..done]);
        done := done + inCoords;
        intersects := Hits(sel, bbox);
        if count == 1 {
          FirstDecides(sel, all, bbox);
          if !intersects {
            ret := 0;
          }
          return;
        }
      }
      AllDecided(sel, all, done, bbox, intersects);
      if !intersects {
        ret := 0;
      }
    }
  }

  /** Takes the coordinates of a piece into the bounds. */
  method Widen(c: array<Coord>, n: nat, bbox: Rect, ghost before: seq<Coord>) returns (r: Rect)
    requires 0 < n <= c.Length && if before == [] then bbox == Rect(c[0], c[0]) else Bounds(before, bbox)
    ensures Bounds(before + c[..n], r)
  {
    hide Bounds;
    r := bbox;
    assert before + c[..0] == before;
    for i := 0 to n
      invariant i == 0 ==> r == bbox
      invariant i > 0 || before != [] ==> Bounds(before + c[..i], r)
    {
      assert before + c[..i + 1] == before + c[..i] + [c[i]];
      if i == 0 && before == [] {
        BoundsOne(c[0]);
        assert before + c[..1] == [c[0]];
      } else {
        BoundsExtended(before + c[..i], r, c[i]);
      }
      r := Extend(r, c[i]);
    }
  }

  method Hits(sel: Selection, bbox: Rect) returns (intersects: bool)
    ensures intersects <==> Meets(sel, bbox)
  {
    intersects := false;
    var curr := 0;
    while !intersects && curr < |sel|
      invariant curr <= |sel| && (intersects ==> Meets(sel, bbox))
      invariant !intersects ==> forall k :: 0 <= k < curr ==> !Overlap(bbox, sel[k])
      decreases |sel| - curr, !intersects
    {
      var sr := sel[curr];
      if bbox.lu.x <= sr.rl.x && bbox.rl.x >= sr.lu.x && bbox.lu.y >= sr.rl.y && bbox.rl.y <= sr.lu.y {
        assert Overlap(bbox, sel[curr]);
        intersects := true;
      }
      curr := curr + 1;
    }
  }

  lemma FirstDecides(sel: Selection, all: seq<Coord>, bbox: Rect)
    requires all != [] && Bounds(all[..1], bbox)
    ensures sel != [] && PointIn(sel, all[0]) <==> Meets(sel, bbox)
  {
    assert all[..1] == [all[0]];
    PointIsPolygon(sel, all[0]);
    BoundsOne(all[0]);
    BoundsUnique([all[0]], bbox, Rect(all[0], all[0]));
    if sel != [] && PolygonIn(sel, [all[0]]) {
      var r :| Bounds([all[0]], r) && Meets(sel, r);
      BoundsUnique([all[0]], r, bbox);
    }
  }

  /** A hit on the first pieces is a hit, and no hit on all pieces is none. */
  lemma AllDecided(sel: Selection, all: seq<Coord>, done: nat, bbox: Rect, intersects: bool)
    requires done <= |all| && (done > 0 ==> Bounds(all[..done], bbox) && (intersects <==> Meets(sel, bbox)))
    requires intersects ==> done > 0
    ensures intersects ==> sel != [] && PolygonIn(sel, all)
    ensures !intersects && done == |all| ==> sel == [] || !PolygonIn(sel, all)
  {
    if intersects {
      var s := BoundsExist(all);
      assert all[..done] + all[done..] == all;
      BoundsGrow(all[..done], all[done..], bbox, s);
      MeetsGrow(sel, bbox, s);
    } else if done == |all| && sel != [] && PolygonIn(sel, all) {
      var s :| Bounds(all, s) && Meets(sel, s);
      assert all[..done] == all;
      assert done > 0;
      BoundsUnique(all, s, bbox);
    }
  }
}
