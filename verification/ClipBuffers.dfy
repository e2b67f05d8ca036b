/**
 * The clipping of navit/graphics.c in its buffers: four passes that flip between a temporary
 * and the output buffer, and the outline and holes of a polygon side by side in one buffer.
 */
module ClipBuffers {
  import opened Coords
  import opened Clip

  lemma {:induction false} PassFromAppend(cut: Cut, s: Coord, pts: seq<Coord>, p: Coord, r: Rect, edge: int)
    requires 0 <= edge < 4
    ensures PassFrom(cut, s, pts + [p], r, edge) ==
      PassFrom(cut, s, pts, r, edge) + Emit(cut, if pts == [] then s else pts[|pts| - 1], p, r, edge)
    decreases |pts|
  {
    hide Emit;
    if pts == [] {
      assert [p][1..] == [];
    } else {
      assert (pts + [p])[1..] == pts[1..] + [p];
      PassFromAppend(cut, pts[0], pts[1..], p, r, edge);
    }
  }

  lemma {:induction false} PassFromPrefix(cut: Cut, s: Coord, pts: seq<Coord>, k: nat, r: Rect, edge: int)
    requires 0 <= edge < 4 && k <= |pts|
    ensures |PassFrom(cut, s, pts[..k], r, edge)| <= |PassFrom(cut, s, pts, r, edge)|
    decreases |pts| - k
  {
    hide Emit;
    if k == |pts| {
      assert pts[..k] == pts;
    } else {
      PassFromAppend(cut, s, pts[..k], pts[k], r, edge);
      assert pts[..k] + [pts[k]] == pts[..k + 1];
      PassFromPrefix(cut, s, pts, k + 1, r, edge);
    }
  }

  /** The points that one vertex contributes, written behind the last ones. */
  method WriteVertex(s: Coord, p: Coord, r: Rect, edge: nat, pout: array<Coord>, pos: nat) returns (next: nat)
    requires edge < 4 && pos + |Emit(OfSum, s, p, r, edge)| <= pout.Length
    modifies pout
    ensures next == pos + |Emit(OfSum, s, p, r, edge)|
    ensures pout[..next] == old(pout[..pos]) + Emit(OfSum, s, p, r, edge)
  {
    hide Crossing, Inside;
    next := pos;
    if Inside(p, r, edge) {
      if !Inside(s, r, edge) {
        pout[next] := Crossing(OfSum, s, p, r, edge);
        next := next + 1;
      }
      pout[next] := p;
      next := next + 1;
    } else if Inside(s, r, edge) {
      pout[next] := Crossing(OfSum, p, s, r, edge);
      next := next + 1;
    }
  }

  lemma PassStep(cut: Cut, s: Coord, pts: seq<Coord>, i: nat, r: Rect, edge: int)
    requires 0 <= edge < 4 && i < |pts|
    ensures PassFrom(cut, s, pts[..i + 1], r, edge) ==
      PassFrom(cut, s, pts[..i], r, edge) + Emit(cut, if i == 0 then s else pts[i - 1], pts[i], r, edge)
    ensures |PassFrom(cut, s, pts[..i + 1], r, edge)| <= |PassFrom(cut, s, pts, r, edge)|
  {
    hide Emit, PassFrom;
    PassFromAppend(cut, s, pts[..i], pts[i], r, edge);
    assert pts[..i] + [pts[i]] == pts[..i + 1];
    PassFromPrefix(cut, s, pts, i + 1, r, edge);
  }

  lemma PassBounds(cut: Cut, pts: seq<Coord>, r: Rect, edge: int)
    requires 0 <= edge < 4
    ensures 2 * |Pass(cut, pts, r, edge)| <= 3 * |pts|
    ensures pts == [] ==> Pass(cut, pts, r, edge) == []
    ensures pts != [] ==> Pass(cut, pts, r, edge) == PassFrom(cut, pts[|pts| - 1], pts[..|pts|], r, edge)
    ensures pts != [] ==> PassFrom(cut, pts[|pts| - 1], pts[..0], r, edge) == [] && pts[..|pts|] == pts
  {
    hide Emit;
    PassLength(cut, pts, r, edge);
    assert pts[..|pts|] == pts;
  }

  /** One pass, from one buffer to another. */
  method ClipPass(pin: array<Coord>, start: nat, count: nat, r: Rect, edge: nat, pout: array<Coord>, to: nat)
    returns (n: nat)
    requires edge < 4 && pin != pout && start + count <= pin.Length
    requires to <= pout.Length && 2 * (pout.Length - to) >= 3 * count
    modifies pout
    ensures n == |Pass(OfSum, pin[start..start + count], r, edge)| && to + n <= pout.Length
    ensures pout[..to + n] == old(pout[..to]) + Pass(OfSum, pin[start..start + count], r, edge)
  {
    hide Emit, PassFrom, Pass;
    ghost var pts := pin[start..start + count];
    PassBounds(OfSum, pts, r, edge);
    n := 0;
    if count == 0 {
      return;
    }
    var s := pin[start + count - 1];
    ghost var before := s;
    for i := 0 to count
      invariant n == |PassFrom(OfSum, before, pts[..i], r, edge)| && to + n <= pout.Length
      invariant pout[..to + n] == old(pout[..to]) + PassFrom(OfSum, before, pts[..i], r, edge)
      invariant s == if i == 0 then before else pts[i - 1]
    {
      PassStep(OfSum, before, pts, i, r, edge);
      var p := pin[start + i];
      var next := WriteVertex(s, p, r, edge, pout, to + n);
      n := next - to;
      s := p;
    }
  }

  /**
   * graphics_clip_polygon.  `room` is the caller's buffer size; with less than eight points
   * per vertex and one, nothing happens.
   */
  method ClipPolygon(r: Rect, input: array<Coord>, countIn: nat, out: array<Coord>, to: nat, room: int)
    returns (countOut: int)
    requires countIn <= input.Length && input != out && to <= out.Length && room <= out.Length - to
    modifies out
    ensures out[..to] == old(out[..to])
    ensures room < countIn * 8 + 1 ==> countOut == room && out[..] == old(out[..])
    ensures room >= countIn * 8 + 1 ==>
      && countOut == |Clipped(OfSum, input[..countIn], r, 4)| && to + countOut <= out.Length
      && out[to..to + countOut] == Clipped(OfSum, input[..countIn], r, 4)
  {
    hide Pass;
    countOut := room;
    if room < countIn * 8 + 1 {
      return;
    }
    ghost var pts := input[..countIn];
    var temp := new Coord[countIn * 8 + 1](_ => Coord(0, 0));
    var pin, pinStart, count := input, 0, countIn;
    var inTemp := false;  // whether the next pass reads the temporary buffer
    for edge := 0 to 4
      invariant inTemp == (edge % 2 == 1)
      invariant pin == (if edge == 0 then input else if inTemp then temp else out)
      invariant pinStart == if edge > 0 && !inTemp then to else 0
      invariant pinStart + count <= pin.Length
      invariant edge > 0 ==> countOut == count
      invariant count == |Clipped(OfSum, pts, r, edge)|
      invariant pin[pinStart..pinStart + count] == Clipped(OfSum, pts, r, edge)
      invariant input[..countIn] == pts && out[..to] == old(out[..to])
    {
      ClippedFits(OfSum, pts, r, edge);
      if inTemp {
        countOut := ClipPass(pin, pinStart, count, r, edge, out, to);
        assert out[..to] == out[..to + countOut][..to];
        pin, pinStart := out, to;
      } else {
        countOut := ClipPass(pin, pinStart, count, r, edge, temp, 0);
        pin, pinStart := temp, 0;
      }
      inTemp := !inTemp;
      count := countOut;
    }
  }

  // ---------------------------------------------------------------- holes

  /** A hole as the caller passes it: an array and how many points of it count. */
  datatype Hole = Hole(points: array<Coord>, count: nat)

  ghost predicate ValidHoles(holes: seq<Hole>) {
    forall i :: 0 <= i < |holes| ==> holes[i].count <= holes[i].points.Length
  }

  ghost function Points(h: Hole): seq<Coord>
    requires h.count <= h.points.Length
    reads h.points
  {
    h.points[..h.count]
  }

  /** The clipped holes that have points left, in order. */
  ghost function Remaining(r: Rect, holes: seq<Hole>): seq<seq<Coord>>
    requires ValidHoles(holes)
    reads set h | h in holes :: h.points
  {
    if holes == [] then []
    else
      var n := |holes| - 1;
      var c := Clipped(OfSum, Points(holes[n]), r, 4);
      Remaining(r, holes[..n]) + (if c == [] then [] else [c])
  }

  function TotalCount(holes: seq<Hole>): nat {
    if holes == [] then 0 else TotalCount(holes[..|holes| - 1]) + holes[|holes| - 1].count
  }

  /** A part of the buffer: where it starts and how long it is. */
  datatype Slice = Slice(start: nat, count: nat)

  /** The slices follow one another in the buffer, from a position on, and hold the given polygons. */
  ghost predicate Holds(buffer: seq<Coord>, from: nat, slices: seq<Slice>, polygons: seq<seq<Coord>>) {
    && |slices| == |polygons|
    && (forall i :: 0 <= i < |slices| ==>
          from <= slices[i].start && slices[i].start + slices[i].count <= |buffer| &&
          buffer[slices[i].start..slices[i].start + slices[i].count] == polygons[i])
    && (forall i, j :: 0 <= i < j < |slices| ==> slices[i].start + slices[i].count <= slices[j].start)
  }

  /** One more polygon behind the others; an empty one gets no slice. */
  lemma HoldsMore(buffer: seq<Coord>, from: nat, slices: seq<Slice>, polygons: seq<seq<Coord>>, more: seq<Coord>)
    requires Holds(buffer, from, slices, polygons) && from <= |buffer|
    ensures if more == [] then buffer + more == buffer && Holds(buffer, from, slices, polygons)
            else Holds(buffer + more, from, slices + [Slice(|buffer|, |more|)], polygons + [more])
  {
    var longer := buffer + more;
    forall i | 0 <= i < |slices|
      ensures longer[slices[i].start..slices[i].start + slices[i].count] == polygons[i]
    {
      assert longer[slices[i].start..slices[i].start + slices[i].count] ==
        buffer[slices[i].start..slices[i].start + slices[i].count];
    }
    assert longer[|buffer|..|buffer| + |more|] == more;
  }

  lemma {:induction false} TotalGrows(holes: seq<Hole>, i: nat)
    requires i <= |holes|
    ensures TotalCount(holes[..i]) <= TotalCount(holes)
    decreases |holes| - i
  {
    if i < |holes| {
      TotalNext(holes, i);
      TotalGrows(holes, i + 1);
    } else {
      assert holes[..i] == holes;
    }
  }

  lemma TotalNext(holes: seq<Hole>, i: nat)
    requires i < |holes|
    ensures TotalCount(holes[..i + 1]) == TotalCount(holes[..i]) + holes[i].count
  {
    assert holes[..i + 1][..i] == holes[..i];
  }

  lemma RemainingNext(r: Rect, holes: seq<Hole>, i: nat)
    requires ValidHoles(holes) && i < |holes|
    ensures var c := Clipped(OfSum, Points(holes[i]), r, 4);
      Remaining(r, holes[..i + 1]) == if c == [] then Remaining(r, holes[..i]) else Remaining(r, holes[..i]) + [c]
  {
    assert holes[..i + 1][..i] == holes[..i];
  }

  /** The first loop of graphics_draw_polygon_with_holes_clipped. */
  method CountAll(countIn: nat, holes: seq<Hole>) returns (total: nat)
    ensures total == countIn + TotalCount(holes)
  {
    total := countIn;
    for i := 0 to |holes|
      invariant total == countIn + TotalCount(holes[..i])
    {
      TotalNext(holes, i);
      total := total + holes[i].count;
    }
    assert holes[..|holes|] == holes;
  }

  /** One hole, clipped into the buffer behind what is used; remembered if points are left. */
  method ClipHole(r: Rect, h: Hole, clipped: array<Coord>, used: nat, room: int, found: seq<Slice>,
                  ghost from: nat, ghost polygons: seq<seq<Coord>>)
    returns (used': nat, found': seq<Slice>)
    requires h.count <= h.points.Length && h.points != clipped
    requires used + room == clipped.Length && room >= h.count * 8 + 1
    requires from <= used && Holds(clipped[..used], from, found, polygons)
    modifies clipped
    ensures used' == used + |Clipped(OfSum, old(Points(h)), r, 4)| <= clipped.Length
    ensures clipped[..used] == old(clipped[..used])
    ensures var c := Clipped(OfSum, old(Points(h)), r, 4);
      Holds(clipped[..used'], from, found', if c == [] then polygons else polygons + [c])
  {
    hide Clipped, Holds;
    ghost var before, c := clipped[..used], Clipped(OfSum, Points(h), r, 4);
    HoldsMore(before, from, found, polygons, c);
    var count := ClipPolygon(r, h.points, h.count, clipped, used, room);
    assert clipped[..used + count] == before + c;
    found' := found;
    if count > 0 {
      found' := found' + [Slice(used, count)];
    }
    used' := used + count;
  }

  /**
   * graphics_draw_polygon_with_holes_clipped, up to the drawing: outline and holes clipped
   * into one buffer.  There is always room, whatever the holes.
   */
  method ClipWithHoles(r: Rect, pin: array<Coord>, countIn: nat, holes: seq<Hole>)
    returns (clipped: array<Coord>, countOut: int, found: seq<Slice>)
    requires countIn <= pin.Length && ValidHoles(holes)
    ensures 0 <= countOut <= clipped.Length && clipped[..countOut] == Clipped(OfSum, pin[..countIn], r, 4)
    ensures Holds(clipped[..], countOut, found, Remaining(r, holes))
  {
    hide Clipped, Holds, Remaining;
    var total := CountAll(countIn, holes);
    var capacity := total * 8 + 1 + |holes|;
    clipped := new Coord[capacity](_ => Coord(0, 0));
    countOut := ClipPolygon(r, pin, countIn, clipped, 0, capacity);
    ClippedFits(OfSum, pin[..countIn], r, 4);
    var used := countOut;
    found := [];
    NothingHeld(clipped[..used], countOut, r);
    for i := 0 to |holes|
      invariant countOut <= used <= 8 * (countIn + TotalCount(holes[..i]))
      invariant used <= clipped.Length && clipped[..countOut] == Clipped(OfSum, pin[..countIn], r, 4)
      invariant Holds(clipped[..used], countOut, found, Remaining(r, holes[..i]))
    {
      TotalNext(holes, i);
      TotalGrows(holes, i + 1);
      RemainingNext(r, holes, i);
      ClippedFits(OfSum, Points(holes[i]), r, 4);
      assert clipped[..countOut] == clipped[..used][..countOut];
      ghost var before := clipped[..used];
      used, found := ClipHole(r, holes[i], clipped, used, capacity - used, found, countOut, Remaining(r, holes[..i]));
      assert clipped[..countOut] == before[..countOut];
    }
    assert holes[..|holes|] == holes;
    HeldInAll(clipped[..], used, countOut, found, Remaining(r, holes));
  }

  lemma NothingHeld(buffer: seq<Coord>, from: nat, r: Rect)
    ensures Holds(buffer, from, [], []) && Remaining(r, []) == []
  {
  }

  lemma HeldInAll(buffer: seq<Coord>, used: nat, from: nat, slices: seq<Slice>, polygons: seq<seq<Coord>>)
    requires used <= |buffer| && Holds(buffer[..used], from, slices, polygons)
    ensures Holds(buffer, from, slices, polygons)
  {
    forall i | 0 <= i < |slices|
      ensures buffer[slices[i].start..slices[i].start + slices[i].count] == polygons[i]
    {
      assert buffer[slices[i].start..slices[i].start + slices[i].count] ==
        buffer[..used][slices[i].start..slices[i].start + slices[i].count];
    }
  }
}
