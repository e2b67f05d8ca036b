/**
 * The labels drawn in a frame: duplicates of a text are suppressed, and a larger label replaces
 * smaller ones of its text (navit/graphics.c).
 */
module Labels {
  import opened CArith
  import opened Coords

  /** struct label_pos: the anchor, the box and the text size */
  datatype Place = Place(x: int, y: int, xmin: int, ymin: int, xmax: int, ymax: int, size: int)

  /** A label to draw, with its width and line height */
  datatype Request = Request(text: string, place: Place, width: int, height: int)

  /** The boxes share a point. */
  predicate Intersect(a: Place, b: Place) {
    a.xmin <= b.xmax && b.xmin <= a.xmax && a.ymin <= b.ymax && b.ymin <= a.ymax
  }

  function Inflated(p: Place, gutter: int): Place {
    p.(xmin := p.xmin - gutter, ymin := p.ymin - gutter, xmax := p.xmax + gutter, ymax := p.ymax + gutter)
  }

  /** A float taken as an int: towards zero */
  function Truncated(r: real): int {
    if r >= 0.0 then r.Floor else -(-r).Floor
  }

  /** The corners of a rotated text: first the x, then the y */
  function Corners(at: int, along: real, across: real): seq<real> {
    var a := at as real;
    [a + across, a + along + across, a + along - across, a - across]
  }

  function Least(s: seq<real>): real
    requires s != []
  {
    if |s| == 1 then s[0]
    else
      var m := Least(s[..|s| - 1]);
      if s[|s| - 1] < m then s[|s| - 1] else m
  }

  function Greatest(s: seq<real>): real
    requires s != []
  {
    if |s| == 1 then s[0]
    else
      var m := Greatest(s[..|s| - 1]);
      if s[|s| - 1] > m then s[|s| - 1] else m
  }

  lemma {:induction false} LeastIs(s: seq<real>)
    requires s != []
    ensures Least(s) in s && forall x :: x in s ==> Least(s) <= x
  {
    if |s| > 1 {
      LeastIs(s[..|s| - 1]);
      assert s == s[..|s| - 1] + [s[|s| - 1]];
    }
  }

  lemma {:induction false} GreatestIs(s: seq<real>)
    requires s != []
    ensures Greatest(s) in s && forall x :: x in s ==> x <= Greatest(s)
  {
    if |s| > 1 {
      GreatestIs(s[..|s| - 1]);
      assert s == s[..|s| - 1] + [s[|s| - 1]];
    }
  }

  lemma FirstOnly(s: seq<real>)
    requires s != []
    ensures Least(s[..1]) == s[0] == Greatest(s[..1])
  {
  }

  lemma {:induction false} OneMore(s: seq<real>, i: nat)
    requires 0 < i < |s|
    ensures Least(s[..i + 1]) == if s[i] < Least(s[..i]) then s[i] else Least(s[..i])
    ensures Greatest(s[..i + 1]) == if s[i] > Greatest(s[..i]) then s[i] else Greatest(s[..i])
  {
    assert s[..i + 1][..i] == s[..i];
  }

  /** The upright box around a text of that width and height drawn from (x, y) in that direction */
  function BoxOf(x: int, y: int, width: int, height: int, dirx: real, diry: real, size: int): Place {
    var xs := Corners(x, dirx * width as real, -diry * height as real / 2.0);
    var ys := Corners(y, diry * width as real, dirx * height as real / 2.0);
    Place(x, y, Truncated(Least(xs)), Truncated(Least(ys)), Truncated(Greatest(xs)), Truncated(Greatest(ys)), size)
  }

  /** Least and greatest depend on the members alone. */
  lemma SameMembers(s: seq<real>, r: seq<real>)
    requires s != [] && r != [] && forall x :: x in s <==> x in r
    ensures Least(s) == Least(r) && Greatest(s) == Greatest(r)
  {
    LeastIs(s);
    LeastIs(r);
    GreatestIs(s);
    GreatestIs(r);
  }

  /** Mirrored at the diagonal, with anchor and direction mirrored, a text has the mirrored box. */
  lemma MirroredBox(x: int, y: int, width: int, height: int, dirx: real, diry: real, size: int)
    ensures var p, q := BoxOf(x, y, width, height, dirx, diry, size), BoxOf(y, x, width, height, diry, dirx, size);
      p.xmin == q.ymin && p.xmax == q.ymax && p.ymin == q.xmin && p.ymax == q.xmax && p.x == q.y && p.y == q.x
  {
    hide Least, Greatest, Truncated, Corners;
    var ax, ay := dirx * width as real, diry * width as real;
    var px, py := -diry * height as real / 2.0, dirx * height as real / 2.0;
    var qx, qy := -dirx * height as real / 2.0, diry * height as real / 2.0;
    TurnedCorners(x, ax, px, qy);
    TurnedCorners(y, ay, py, qx);
    BoxIs(x, y, width, height, dirx, diry, size, ax, ay, px, py);
    BoxIs(y, x, width, height, diry, dirx, size, ay, ax, qx, qy);
  }

  lemma BoxIs(x: int, y: int, width: int, height: int, dirx: real, diry: real, size: int,
              ax: real, ay: real, px: real, py: real)
    requires ax == dirx * width as real && ay == diry * width as real
    requires px == -diry * height as real / 2.0 && py == dirx * height as real / 2.0
    ensures var xs, ys := Corners(x, ax, px), Corners(y, ay, py);
      BoxOf(x, y, width, height, dirx, diry, size) ==
        Place(x, y, Truncated(Least(xs)), Truncated(Least(ys)), Truncated(Greatest(xs)), Truncated(Greatest(ys)), size)
  {
  }

  lemma TurnedCorners(at: int, along: real, across: real, other: real)
    requires across == -other
    ensures Least(Corners(at, along, across)) == Least(Corners(at, along, other))
    ensures Greatest(Corners(at, along, across)) == Greatest(Corners(at, along, other))
  {
    var s, r := Corners(at, along, across), Corners(at, along, other);
    assert s[0] == r[3] && s[1] == r[2] && s[2] == r[1] && s[3] == r[0];
    SameMembers(s, r);
  }

  /** label_get_bbox */
  method GetBox(x: int, y: int, width: int, height: int, dirx: real, diry: real, size: int) returns (p: Place)
    ensures p == BoxOf(x, y, width, height, dirx, diry, size)
  {
    hide Truncated, Least, Greatest;
    FirstOnly(Corners(x, dirx * width as real, -diry * height as real / 2.0));
    FirstOnly(Corners(y, diry * width as real, dirx * height as real / 2.0));
    var ax, ay := dirx * width as real, diry * width as real;
    var px, py := -diry * height as real / 2.0, dirx * height as real / 2.0;
    var cx := [x as real + px, x as real + ax + px, x as real + ax - px, x as real - px];
    var cy := [y as real + py, y as real + ay + py, y as real + ay - py, y as real - py];
    var xmin, xmax, ymin, ymax := cx[0], cx[0], cy[0], cy[0];
    assert cx == Corners(x, ax, px) && cy == Corners(y, ay, py);
    for i := 1 to 4
      invariant xmin == Least(cx[..i]) && xmax == Greatest(cx[..i])
      invariant ymin == Least(cy[..i]) && ymax == Greatest(cy[..i])
    {
      OneMore(cx, i);
      OneMore(cy, i);
      if cx[i] < xmin {
        xmin := cx[i];
      }
      if cx[i] > xmax {
        xmax := cx[i];
      }
      if cy[i] < ymin {
        ymin := cy[i];
      }
      if cy[i] > ymax {
        ymax := cy[i];
      }
    }
    assert cx[..4] == cx && cy[..4] == cy;
    p := Place(x, y, Truncated(xmin), Truncated(ymin), Truncated(xmax), Truncated(ymax), size);
  }

  /** How far apart anchors have to be: half the width, or two line heights if that is more */
  function MinDist(width: int, height: int): (d: int)
    ensures d >= 2 * height
  {
    if Quot(width, 2) < 2 * height then 2 * height else Quot(width, 2)
  }

  /** An old label that is not smaller suppresses a new one that is near its anchor or its box. */
  predicate Suppresses(prior: Place, p: Place, width: int, height: int) {
    var dx, dy, d := p.x - prior.x, p.y - prior.y, MinDist(width, height);
    p.size <= prior.size && (dx * dx + dy * dy < d * d || Intersect(prior, Inflated(p, height)))
  }

  predicate Duplicate(list: seq<Place>, p: Place, width: int, height: int) {
    exists i :: 0 <= i < |list| && Suppresses(list[i], p, width, height)
  }

  /** A new label takes the place of the smaller ones that it covers. */
  predicate Replaces(p: Place, prior: Place) {
    prior.size < p.size && Intersect(prior, p)
  }

  function Kept(list: seq<Place>, p: Place): (r: seq<Place>)
    ensures forall q :: q in r <==> q in list && !Replaces(p, q)
  {
    if list == [] then []
    else
      var init, q := Kept(list[..|list| - 1], p), list[|list| - 1];
      if Replaces(p, q) then init else init + [q]
  }

  function Recorded(list: seq<Place>, p: Place): seq<Place> {
    [p] + Reversed(Kept(list, p))
  }

  type Registry = map<string, seq<Place>>

  function PlacesOf(table: Registry, text: string): seq<Place> {
    if text in table then table[text] else []
  }

  /** One label that is asked for */
  function Step(table: Registry, r: Request): Registry {
    var list := PlacesOf(table, r.text);
    if Duplicate(list, r.place, r.width, r.height) then table else table[r.text := Recorded(list, r.place)]
  }

  /** A frame */
  function Run(requests: seq<Request>): Registry {
    if requests == [] then map[] else Step(Run(requests[..|requests| - 1]), requests[|requests| - 1])
  }

  // -------------------------------------------------------------- theorems

  ghost predicate Disjoint(list: seq<Place>) {
    forall i, j :: 0 <= i < j < |list| ==> !Intersect(list[i], list[j])
  }

  lemma ReversedMembers<T>(s: seq<T>)
    ensures forall x :: x in Reversed(s) <==> x in s
  {
    forall k | 0 <= k < |s|
      ensures s[k] in Reversed(s) && Reversed(s)[k] in s
    {
      ReversedAt(s, |s| - 1 - k);
      ReversedAt(s, k);
    }
  }

  lemma {:induction false} KeptDisjoint(list: seq<Place>, p: Place)
    requires Disjoint(list)
    ensures Disjoint(Kept(list, p))
  {
    if list != [] {
      var init, q := list[..|list| - 1], list[|list| - 1];
      KeptDisjoint(init, p);
      var kept := Kept(init, p);
      forall i | 0 <= i < |kept|
        ensures !Intersect(kept[i], q)
      {
        assert kept[i] in init;
        var k :| 0 <= k < |init| && init[k] == kept[i];
        assert list[k] == init[k];
      }
    }
  }

  lemma ReversedDisjoint(list: seq<Place>)
    requires Disjoint(list)
    ensures Disjoint(Reversed(list))
  {
    forall i, j | 0 <= i < j < |list|
      ensures !Intersect(Reversed(list)[i], Reversed(list)[j])
    {
      ReversedAt(list, i);
      ReversedAt(list, j);
    }
  }

  /** Checking and recording a label keeps the boxes of its text apart. */
  lemma RecordedDisjoint(list: seq<Place>, r: Request)
    requires Disjoint(list) && r.height >= 0 && !Duplicate(list, r.place, r.width, r.height)
    ensures Disjoint(Recorded(list, r.place))
  {
    var kept := Kept(list, r.place);
    KeptDisjoint(list, r.place);
    ReversedDisjoint(kept);
    ReversedMembers(kept);
    forall i | 0 <= i < |kept|
      ensures !Intersect(r.place, Reversed(kept)[i])
    {
      var q := Reversed(kept)[i];
      assert q in kept && q in list && !Replaces(r.place, q);
      var k :| 0 <= k < |list| && list[k] == q;
      assert !Suppresses(list[k], r.place, r.width, r.height);
    }
  }

  /** Whatever is asked for in a frame, the boxes recorded for a text never touch. */
  lemma {:induction false} RunDisjoint(requests: seq<Request>, text: string)
    requires forall i :: 0 <= i < |requests| ==> requests[i].height >= 0
    ensures Disjoint(PlacesOf(Run(requests), text))
  {
    if requests != [] {
      var init, r := requests[..|requests| - 1], requests[|requests| - 1];
      RunDisjoint(init, text);
      var list := PlacesOf(Run(init), r.text);
      if text == r.text && !Duplicate(list, r.place, r.width, r.height) {
        RecordedDisjoint(list, r);
      }
    }
  }

  predicate InBox(x: int, y: int, p: Place) {
    p.xmin <= x <= p.xmax && p.ymin <= y <= p.ymax
  }

  ghost predicate ShareAPoint(p: Place, q: Place) {
    exists x: int, y: int :: InBox(x, y, p) && InBox(x, y, q)
  }

  /** Recording a label takes out just the smaller ones whose boxes it meets, and adds itself. */
  lemma RecordingKeeps(list: seq<Place>, p: Place, q: Place)
    requires p.xmin <= p.xmax && p.ymin <= p.ymax && q.xmin <= q.xmax && q.ymin <= q.ymax
    ensures q in Recorded(list, p) <==> q == p || (q in list && !(q.size < p.size && ShareAPoint(p, q)))
  {
    ReversedMembers(Kept(list, p));
    assert Intersect(q, p) <==> ShareAPoint(p, q) by {
      if Intersect(q, p) {
        var x, y := if p.xmin < q.xmin then q.xmin else p.xmin, if p.ymin < q.ymin then q.ymin else p.ymin;
        assert InBox(x, y, p) && InBox(x, y, q);
      }
    }
  }

  /** The anchors are at least half a text width and two line heights from each other. */
  predicate AnchorsApart(p: Place, q: Place, width: int, height: int) {
    var distSq := (p.x - q.x) * (p.x - q.x) + (p.y - q.y) * (p.y - q.y);
    distSq >= (2 * height) * (2 * height) && 4 * distSq >= (width - 1) * (width - 1)
  }

  /** More than a line height lies between the boxes. */
  predicate BoxesApart(p: Place, q: Place, height: int) {
    || p.xmin - q.xmax > height || q.xmin - p.xmax > height
    || p.ymin - q.ymax > height || q.ymin - p.ymax > height
  }

  lemma SquareGrows(a: int, b: int)
    requires 0 <= a <= b
    ensures a * a <= b * b
  {
    assert b * b - a * a == (b - a) * b + a * (b - a);
    assert (b - a) * b >= 0 && a * (b - a) >= 0;
  }

  lemma FarFromMinDist(distSq: int, width: int, height: int)
    requires width >= 0 && height >= 0
    ensures var d := MinDist(width, height);
      && (distSq >= d * d ==> distSq >= (2 * height) * (2 * height))
      && (distSq >= d * d && width > 0 ==> 4 * distSq >= (width - 1) * (width - 1))
      && (distSq >= (2 * height) * (2 * height) && 4 * distSq >= width * width ==> distSq >= d * d)
  {
    var d, half := MinDist(width, height), Quot(width, 2);
    assert half == width / 2 && width - 1 <= 2 * half <= width;
    SquareGrows(2 * height, d);
    SquareGrows(half, d);
    SquareGrows(2 * half, width);
    assert (2 * half) * (2 * half) == 4 * (half * half);
    if width > 0 {
      SquareGrows(width - 1, 2 * half);
    }
  }

  /** A label that is not suppressed keeps its distance from those that are not smaller. */
  lemma NotSuppressedIsApart(prior: Place, p: Place, width: int, height: int)
    requires width > 0 && height >= 0 && p.size <= prior.size && !Suppresses(prior, p, width, height)
    ensures AnchorsApart(p, prior, width, height) && BoxesApart(p, prior, height)
  {
    var dx, dy := p.x - prior.x, p.y - prior.y;
    FarFromMinDist(dx * dx + dy * dy, width, height);
  }

  /** And no label is suppressed without a reason: one that is far enough from all that are not smaller is drawn. */
  lemma ApartIsDrawn(list: seq<Place>, p: Place, width: int, height: int)
    requires width >= 0 && height >= 0
    requires forall i :: 0 <= i < |list| && p.size <= list[i].size ==>
      AnchorsApart(p, list[i], width + 1, height) && BoxesApart(p, list[i], height)
    ensures !Duplicate(list, p, width, height)
  {
    forall i | 0 <= i < |list|
      ensures !Suppresses(list[i], p, width, height)
    {
      var dx, dy := p.x - list[i].x, p.y - list[i].y;
      FarFromMinDist(dx * dx + dy * dy, width, height);
    }
  }

  ghost predicate AllApart(list: seq<Place>, width: int, height: int) {
    forall i, j :: 0 <= i < j < |list| ==>
      AnchorsApart(list[i], list[j], width, height) && BoxesApart(list[i], list[j], height)
  }

  lemma {:induction false} NothingReplaced(list: seq<Place>, p: Place)
    requires forall i :: 0 <= i < |list| ==> list[i].size == p.size
    ensures Kept(list, p) == list
  {
    if list != [] {
      NothingReplaced(list[..|list| - 1], p);
      assert list == list[..|list| - 1] + [list[|list| - 1]];
    }
  }

  lemma RecordedAt(list: seq<Place>, p: Place)
    requires forall i :: 0 <= i < |list| ==> list[i].size == p.size
    ensures var now := Recorded(list, p);
      |now| == |list| + 1 && now[0] == p && forall i :: 0 < i < |now| ==> now[i] == list[|list| - i]
  {
    hide Kept;
    NothingReplaced(list, p);
    forall i | 0 < i <= |list|
      ensures Recorded(list, p)[i] == list[|list| - i]
    {
      ReversedAt(list, i - 1);
    }
  }

  lemma RecordedApart(list: seq<Place>, r: Request)
    requires r.width > 0 && r.height >= 0 && AllApart(list, r.width, r.height)
    requires forall i :: 0 <= i < |list| ==> list[i].size == r.place.size
    requires !Duplicate(list, r.place, r.width, r.height)
    ensures AllApart(Recorded(list, r.place), r.width, r.height)
    ensures forall i :: 0 <= i < |Recorded(list, r.place)| ==> Recorded(list, r.place)[i].size == r.place.size
  {
    hide AnchorsApart, BoxesApart, Suppresses, Recorded, Kept;
    var now := Recorded(list, r.place);
    RecordedAt(list, r.place);
    forall i, j | 0 <= i < j < |now|
      ensures AnchorsApart(now[i], now[j], r.width, r.height) && BoxesApart(now[i], now[j], r.height)
    {
      if i == 0 {
        assert !Suppresses(list[|list| - j], r.place, r.width, r.height);
        NotSuppressedIsApart(list[|list| - j], r.place, r.width, r.height);
      } else {
        ApartBothWays(list[|list| - j], list[|list| - i], r.width, r.height);
      }
    }
  }

  lemma ApartBothWays(p: Place, q: Place, width: int, height: int)
    ensures AnchorsApart(p, q, width, height) == AnchorsApart(q, p, width, height)
    ensures BoxesApart(p, q, height) == BoxesApart(q, p, height)
  {
    assert (p.x - q.x) * (p.x - q.x) == (q.x - p.x) * (q.x - p.x);
    assert (p.y - q.y) * (p.y - q.y) == (q.y - p.y) * (q.y - p.y);
  }

  /**
   * Of labels of one text size and width, those drawn for a text in a frame are half a width and two line heights
   * from each other, with more than a line height between their boxes.
   */
  lemma {:induction false} RunApart(requests: seq<Request>, text: string, width: int, height: int, size: int)
    requires width > 0 && height >= 0
    requires forall i :: 0 <= i < |requests| ==>
      requests[i].width == width && requests[i].height == height && requests[i].place.size == size
    ensures var list := PlacesOf(Run(requests), text);
      AllApart(list, width, height) && forall i :: 0 <= i < |list| ==> list[i].size == size
  {
    hide AllApart, Recorded;
    NoneApart(width, height);
    if requests != [] {
      var init, r := requests[..|requests| - 1], requests[|requests| - 1];
      RunApart(init, text, width, height, size);
      var list := PlacesOf(Run(init), r.text);
      if text == r.text && !Duplicate(list, r.place, r.width, r.height) {
        RecordedApart(list, r);
      }
    }
  }

  lemma NoneApart(width: int, height: int)
    ensures AllApart([], width, height)
  {
  }

  /** The box of the request is that of a text of its width and height, drawn from its anchor in some direction. */
  ghost predicate Drawn(r: Request) {
    exists dirx: real, diry: real :: r.place == BoxOf(r.place.x, r.place.y, r.width, r.height, dirx, diry, r.place.size)
  }

  ghost predicate AllDrawn(requests: seq<Request>, width: int, height: int) {
    forall i :: 0 <= i < |requests| ==> requests[i].width == width && requests[i].height == height && Drawn(requests[i])
  }

  ghost predicate NeverTouch(width: int, height: int) {
    forall requests: seq<Request>, text: string ::
      AllDrawn(requests, width, height) ==> Disjoint(PlacesOf(Run(requests), text))
  }

  /** For labels of one width and height, the boxes of a text stay apart just if the height is not negative. */
  lemma DisjointExactly(width: int, height: int)
    ensures NeverTouch(width, height) <==> height >= 0
  {
    if height >= 0 {
      forall requests: seq<Request>, text: string | AllDrawn(requests, width, height)
        ensures Disjoint(PlacesOf(Run(requests), text))
      {
        RunDisjoint(requests, text);
      }
    } else {
      NegativeHeightTouches(width, height);
      var requests := Crossing(width, height);
      assert !Disjoint(PlacesOf(Run(requests), "a"));
    }
  }

  /** Two labels of a text, one text width apart and drawn to the right */
  function Crossing(width: int, height: int): seq<Request> {
    var x, y := Abs(width), Abs(height);
    [RightOf(x, y, width, height), RightOf(x + x, y + 1, width, height)]
  }

  function RightOf(x: int, y: int, width: int, height: int): Request {
    Request("a", BoxOf(x, y, width, height, 1.0, 0.0, 1), width, height)
  }

  /** A box is shrunk by a negative height before it is compared, so that the two are both recorded. */
  lemma NegativeHeightTouches(width: int, height: int)
    requires height < 0
    ensures AllDrawn(Crossing(width, height), width, height)
    ensures !Disjoint(PlacesOf(Run(Crossing(width, height)), "a"))
  {
    hide BoxOf, MinDist, Corners;
    var requests := Crossing(width, height);
    var x, y := Abs(width), Abs(height);
    var p, q := requests[0].place, requests[1].place;
    RightBox(x, y, width, height, 1);
    RightBox(x + x, y + 1, width, height, 1);
    assert AllDrawn(requests, width, height) by {
      assert p == BoxOf(p.x, p.y, width, height, 1.0, 0.0, 1);
      assert q == BoxOf(q.x, q.y, width, height, 1.0, 0.0, 1);
    }
    assert Intersect(q, p);
    assert !Suppresses(p, q, width, height) by {
      FarEnough(width, height);
    }
    assert Kept([], p) == [];
    assert [p][..0] == [];
    assert Kept([p], q) == [p];
    assert requests[..1] == [requests[0]] && requests[..1][..0] == [];
    assert PlacesOf(Run(requests[..1]), "a") == [p];
    assert PlacesOf(Run(requests), "a") == [q, p];
    assert Intersect([q, p][0], [q, p][1]);
  }

  /** The box of a text drawn to the right, from where no coordinate is negative */
  lemma RightBox(x: int, y: int, width: int, height: int, size: int)
    requires x >= Abs(width) && height < 0 && y >= -height
    ensures var p := BoxOf(x, y, width, height, 1.0, 0.0, size);
      && p.x == x && p.y == y && p.size == size
      && p.xmin == (if width < 0 then x + width else x)
      && p.xmax == (if width < 0 then x else x + width)
      && p.ymax == y + -height / 2
      && p.ymin == y - (-height + 1) / 2
  {
    hide Least, Greatest;
    var half, along := height as real / 2.0, width as real;
    assert 1.0 * height as real / 2.0 == half && -0.0 * height as real / 2.0 == 0.0;
    assert 1.0 * along == along && 0.0 * along == 0.0;
    var xs, ys := Corners(x, along, 0.0), Corners(y, 0.0, half);
    LeastIs(xs);
    GreatestIs(xs);
    LeastIs(ys);
    GreatestIs(ys);
    assert xs[0] in xs && xs[1] in xs && ys[0] in ys && ys[2] in ys;
    assert Least(ys) == y as real + half && Greatest(ys) == y as real - half;
    assert (y as real + half).Floor == y - (-height + 1) / 2;
    assert (y as real - half).Floor == y + -height / 2;
  }

  lemma FarEnough(width: int, height: int)
    requires height < 0
    ensures var d := MinDist(width, height); d * d <= width * width + 1
  {
    var d, w := MinDist(width, height), Abs(width);
    assert Abs(d) <= w;
    assert Abs(d) * Abs(d) <= w * w;
    assert d * d == Abs(d) * Abs(d) && w * w == width * width;
  }

  /** Some label of the list is at least that large. */
  ghost predicate Has(list: seq<Place>, size: int) {
    exists p :: p in list && p.size >= size
  }

  lemma StepKeepsSizes(table: Registry, r: Request, text: string, size: int)
    requires Has(PlacesOf(table, text), size) || (text == r.text && size <= r.place.size)
    ensures Has(PlacesOf(Step(table, r), text), size)
  {
    var list := PlacesOf(table, text);
    if text == r.text {
      if Duplicate(list, r.place, r.width, r.height) {
        var i :| 0 <= i < |list| && Suppresses(list[i], r.place, r.width, r.height);
        assert list[i] in list;
      } else {
        var kept := Kept(list, r.place);
        ReversedMembers(kept);
        var now := Recorded(list, r.place);
        assert r.place in now;
        if Has(list, size) {
          var p :| p in list && p.size >= size;
          assert Replaces(r.place, p) || p in now;
        }
      }
    }
  }

  /** The largest size recorded for a text never gets smaller. */
  lemma LargestNeverShrinks(table: Registry, r: Request, text: string)
    ensures forall size :: Has(PlacesOf(table, text), size) ==> Has(PlacesOf(Step(table, r), text), size)
  {
    forall size | Has(PlacesOf(table, text), size)
      ensures Has(PlacesOf(Step(table, r), text), size)
    {
      StepKeepsSizes(table, r, text, size);
    }
  }

  /** Of every text the registry holds a label as large as the largest that was asked for, and none that was not. */
  lemma {:induction false} RunKeepsLargest(requests: seq<Request>, i: nat)
    requires i < |requests|
    ensures var list := PlacesOf(Run(requests), requests[i].text);
      && Has(list, requests[i].place.size)
      && forall p :: p in list ==> Asked(requests, requests[i].text, p)
  {
    var r := requests[|requests| - 1];
    var init := requests[..|requests| - 1];
    OnlyAsked(requests, requests[i].text);
    if i < |requests| - 1 {
      RunKeepsLargest(init, i);
    }
    StepKeepsSizes(Run(init), r, requests[i].text, requests[i].place.size);
  }

  ghost predicate Asked(requests: seq<Request>, text: string, p: Place) {
    exists i :: 0 <= i < |requests| && requests[i].text == text && requests[i].place == p
  }

  lemma {:induction false} OnlyAsked(requests: seq<Request>, text: string)
    ensures forall p :: p in PlacesOf(Run(requests), text) ==> Asked(requests, text, p)
  {
    if requests != [] {
      var n := |requests| - 1;
      var init, r := requests[..n], requests[n];
      OnlyAsked(init, text);
      var was := PlacesOf(Run(init), text);
      ReversedMembers(Kept(was, r.place));
      forall p | p in PlacesOf(Run(requests), text)
        ensures Asked(requests, text, p)
      {
        if p in was {
          var i :| 0 <= i < n && init[i].text == text && init[i].place == p;
          assert requests[i] == init[i];
        } else {
          assert requests[n].text == text && requests[n].place == p;
        }
      }
    }
  }

  // ------------------------------------------------------------- the frame

  class Frame {
    var placed: Registry

    /** graphics_labels_reset */
    method Reset()
      modifies this
      ensures placed == Run([])
    {
      placed := map[];
    }

    /** label_is_duplicate */
    method IsDuplicate(r: Request) returns (found: bool)
      ensures found == Duplicate(PlacesOf(placed, r.text), r.place, r.width, r.height)
    {
      var l := if r.text in placed then placed[r.text] else [];
      if l == [] {
        return false;
      }
      var mindist := Quot(r.width, 2);
      if mindist < 2 * r.height {
        mindist := 2 * r.height;
      }
      var distsq := mindist * mindist;
      var bbox := r.place.(xmin := r.place.xmin - r.height, ymin := r.place.ymin - r.height,
                           xmax := r.place.xmax + r.height, ymax := r.place.ymax + r.height);
      for n := 0 to |l|
        invariant forall k :: 0 <= k < n ==> !Suppresses(l[k], r.place, r.width, r.height)
      {
        var lp := l[n];
        if r.place.size <= lp.size {
          var dx, dy := r.place.x - lp.x, r.place.y - lp.y;
          if dx * dx + dy * dy < distsq || Intersect(lp, bbox) {
            assert Suppresses(l[n], r.place, r.width, r.height);
            return true;
          }
        }
      }
      found := false;
    }

    /** label_record */
    method Record(text: string, p: Place)
      modifies this
      ensures placed == old(placed)[text := Recorded(PlacesOf(old(placed), text), p)]
    {
      var prior := if text in placed then placed[text] else [];
      var l: seq<Place> := [];
      assert prior[..0] == [];
      for n := 0 to |prior|
        invariant placed == old(placed) && l == Reversed(Kept(prior[..n], p))
      {
        assert prior[..n + 1][..n] == prior[..n];
        if !(prior[n].size < p.size && Intersect(prior[n], p)) {
          ReversedAppend(Kept(prior[..n], p), prior[n]);
          l := [prior[n]] + l;
        }
      }
      assert prior[..|prior|] == prior;
      placed := placed[text := [p] + l];
    }

    /** What label_line and the labels of points do: draws a label unless it is a duplicate */
    method Draw(r: Request) returns (drawn: bool)
      modifies this
      ensures placed == Step(old(placed), r)
      ensures drawn <==> !Duplicate(PlacesOf(old(placed), r.text), r.place, r.width, r.height)
    {
      var found := IsDuplicate(r);
      drawn := !found;
      if drawn {
        Record(r.text, r.place);
      }
    }

    /** A frame: the labels in the order they are asked for */
    method DrawAll(requests: seq<Request>)
      modifies this
      ensures placed == Run(requests)
    {
      Reset();
      assert requests[..0] == [];
      for i := 0 to |requests|
        invariant placed == Run(requests[..i])
      {
        assert requests[..i + 1][..i] == requests[..i];
        var _ := Draw(requests[i]);
      }
      assert requests[..|requests|] == requests;
    }
  }
}
