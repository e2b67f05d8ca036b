/**
 * geom_poly_segments_sort over the heap: pieces own coordinate arrays, and joined pieces are
 * new objects whose arrays are filled by copying.
 */
module SegmentAssembly {
  import opened Coords
  import opened SegmentSort
  import opened Areas

  class Segment {
    var kind: Kind
    const pts: array<Coord>
    const last: int  // position of the last coordinate

    constructor (kind: Kind, pts: array<Coord>, last: int)
      ensures this.kind == kind && this.pts == pts && this.last == last
    {
      this.kind, this.pts, this.last := kind, pts, last;
    }

    ghost predicate Valid() {
      0 <= last < pts.Length
    }

    ghost function Value(): Piece
      requires Valid()
      reads this, pts
    {
      Piece(kind, pts[..last + 1])
    }
  }

  ghost predicate AllSegments(list: seq<Segment>) {
    forall i :: 0 <= i < |list| ==> list[i].Valid()
  }

  ghost function Values(list: seq<Segment>): (r: seq<Piece>)
    requires AllSegments(list)
    reads list, set s | s in list :: s.pts
    ensures |r| == |list| && AllValid(r)
    ensures forall i :: 0 <= i < |list| ==> r[i] == list[i].Value()
  {
    if list == [] then [] else [list[0].Value()] + Values(list[1..])
  }

  ghost function Coordinates(s: Segment?): seq<Coord>
    requires s != null ==> s.Valid()
    reads s, if s == null then {} else {s.pts}
  {
    if s == null then [] else s.Value().pts
  }

  /** The piece in front, turned around if need be; its last place is left to the next one. */
  method CopyBefore(to: array<Coord>, first: Segment?, second: Segment) returns (pos: nat)
    requires second.Valid() && to != second.pts
    requires first != null ==> first.Valid() && to != first.pts && first.last < to.Length
    modifies to
    ensures pos == (if first == null then 0 else first.last) <= to.Length
    ensures to[..pos] == if first == null then [] else ButLast(Before(Coordinates(first), Coordinates(second)))
  {
    pos := 0;
    if first != null {
      hide Reversed;
      ghost var f, s := Coordinates(first), Coordinates(second);
      var count := first.last + 1;
      assert first.pts[..count] == f;
      CopyCoords(first.pts, to, pos, count, first.pts[0] == second.pts[0]);
      assert to[0..count] == Before(f, s);
      pos := pos + count - 1;
      assert to[..pos] == to[0..count][..pos];
    }
  }

  /** The piece behind, turned around if need be, over the last place of the new one. */
  method CopyAfter(to: array<Coord>, pos: nat, second: Segment, third: Segment)
    requires second.Valid() && third.Valid() && to != second.pts && to != third.pts
    requires pos + third.last + 1 == to.Length
    modifies to
    ensures to[..pos] == old(to[..pos]) && to[pos..] == After(Coordinates(second), Coordinates(third))
  {
    hide Reversed;
    var count := third.last + 1;
    assert third.pts[..count] == Coordinates(third);
    CopyCoords(third.pts, to, pos, count, third.pts[third.last] == second.pts[second.last]);
    assert to[pos..] == to[pos..pos + count];
  }

  /** The new piece and the one behind it. */
  method CopyRest(to: array<Coord>, start: nat, second: Segment, third: Segment?) returns (pos: nat)
    requires second.Valid() && to != second.pts && (third != null ==> third.Valid() && to != third.pts)
    requires start + second.last + 1 + (if third == null then 0 else third.last) == to.Length
    modifies to
    ensures pos == to.Length && to[..start] == old(to[..start])
    ensures to[start..] == if third == null then Coordinates(second)
      else ButLast(Coordinates(second)) + After(Coordinates(second), Coordinates(third))
  {
    hide After;
    pos := start;
    var count := second.last + 1;
    CopyCoords(second.pts, to, pos, count, false);
    pos := pos + count;
    if third != null {
      pos := pos - 1;
      ghost var kept := to[..pos];
      assert kept == to[..start] + ButLast(Coordinates(second));
      CopyAfter(to, pos, second, third);
      SplitAfter(to[..], kept, start, pos);
      pos := pos + third.last + 1;
    }
  }

  lemma SplitAfter(s: seq<Coord>, kept: seq<Coord>, start: nat, pos: nat)
    requires start <= pos <= |s| && s[..pos] == kept
    ensures s[..start] == kept[..start] && s[start..] == kept[start..] + s[pos..]
  {
  }

  /** geom_poly_segments_insert; the new array is filled to its last place */
  method Insert(list: seq<Segment>, first: Segment?, second: Segment?, third: Segment?) returns (r: seq<Segment>)
    requires first != null ==> first.Valid()
    requires second != null ==> second.Valid()
    requires third != null ==> third.Valid()
    ensures second == null ==> r == []
    ensures second != null ==>
      && |r| == |list| + 1 && r[1..] == list && fresh(r[0]) && fresh(r[0].pts) && r[0].Valid()
      && r[0].last == r[0].pts.Length - 1 && r[0].kind == second.kind
      && r[0].Value().pts == Joined(Coordinates(first), Coordinates(second), Coordinates(third))
  {
    hide Before, After;
    if second == null {
      return [];
    }
    var count := second.last + 1;
    if first != null {
      count := count + first.last;
    }
    if third != null {
      count := count + third.last;
    }
    var to := new Coord[count](_ => Coord(0, 0));
    var pos := CopyBefore(to, first, second);
    ghost var start, head := pos, to[..pos];
    pos := CopyRest(to, pos, second, third);
    assert to[..pos] == head + to[start..];
    var s := new Segment(second.kind, to, pos - 1);
    r := [s] + list;
  }

  ghost predicate Distinct(list: seq<Segment>) {
    forall i, j :: 0 <= i < j < |list| ==> list[i] != list[j]
  }

  ghost function At(list: seq<Segment>, k: int): Segment?
    requires -1 <= k < |list|
  {
    if k < 0 then null else list[k]
  }

  /** g_list_remove: the first occurrence of the pointer goes; `k` is where it is */
  method Remove(list: seq<Segment>, s: Segment?, ghost k: int) returns (r: seq<Segment>)
    requires Distinct(list) && -1 <= k < |list| && s == At(list, k)
    ensures r == Dropped(list, k)
  {
    if s == null {
      return list;
    }
    var i := 0;
    while list[i] != s
      invariant 0 <= i <= k
      decreases k - i
    {
      i := i + 1;
    }
    return list[..i] + list[i + 1..];
  }

  /** geom_poly_segment_compatible */
  method CompatibleSegments(s1: Segment, s2: Segment, dir: int) returns (r: bool)
    requires s1.Valid() && s2.Valid()
    ensures r == Compatible(s1.Value(), s2.Value(), dir < 0)
  {
    var same, opposite := false, false;
    if s1.kind == NoKind || s2.kind == NoKind {
      return false;
    }
    if s1.kind == s2.kind {
      same := true;
      if s1.kind == Inner || s1.kind == Outer {
        opposite := true;
      }
    }
    if s1.kind == LeftSide && s2.kind == RightSide {
      opposite := true;
    }
    if s1.kind == RightSide && s2.kind == LeftSide {
      opposite := true;
    }
    if s1.kind == UnknownKind || s2.kind == UnknownKind {
      same := true;
      opposite := true;
    }
    if dir < 0 {
      r := (opposite && s1.pts[0] == s2.pts[0]) || (same && s1.pts[0] == s2.pts[s2.last]);
    } else {
      r := (opposite && s1.pts[s1.last] == s2.pts[s2.last]) || (same && s1.pts[s1.last] == s2.pts[0]);
    }
  }

  lemma LastMatchGrows(list: seq<Piece>, s: Piece, atStart: bool, k: nat)
    requires AllValid(list) && s.Valid() && k < |list|
    ensures LastMatch(list[..k + 1], s, atStart) ==
      if Compatible(s, list[k], atStart) then k else LastMatch(list[..k], s, atStart)
  {
    assert list[..k + 1][..k] == list[..k];
  }

  /** The search of one round: the last piece that fits before, and after, the new one. */
  method FindMatches(list: seq<Segment>, seg: Segment) returns (mergeFirst: Segment?, mergeLast: Segment?)
    requires AllSegments(list) && Distinct(list) && seg.Valid()
    ensures var m := Chosen(Values(list), seg.Value());
      mergeFirst == At(list, m.0) && mergeLast == At(list, m.1)
  {
    hide Values, LastMatch, Compatible;
    ghost var values, s := Values(list), seg.Value();
    mergeFirst, mergeLast := null, null;
    assert values[..0] == [];
    NoMatch(s);
    for k := 0 to |list|
      invariant mergeFirst == At(list, LastMatch(values[..k], s, true))
      invariant mergeLast == At(list, LastMatch(values[..k], s, false))
    {
      LastMatchGrows(values, s, true, k);
      LastMatchGrows(values, s, false, k);
      var cseg := list[k];
      var fits := CompatibleSegments(seg, cseg, -1);
      if fits {
        mergeFirst := cseg;
      }
      fits := CompatibleSegments(seg, cseg, 1);
      if fits {
        mergeLast := cseg;
      }
    }
    assert values[..|list|] == values;
    if mergeFirst == mergeLast {
      mergeLast := null;
    }
  }

  lemma NoMatch(s: Piece)
    requires s.Valid()
    ensures LastMatch([], s, true) == -1 && LastMatch([], s, false) == -1
  {
  }

  lemma DroppedCons<T>(x: T, list: seq<T>, k: int)
    requires 0 <= k < |list|
    ensures Dropped([x] + list, k + 1) == [x] + Dropped(list, k)
    ensures ([x] + list)[k + 1] == list[k]
  {
    assert ([x] + list)[..k + 1] == [x] + list[..k];
    assert ([x] + list)[k + 1 + 1..] == list[k + 1..];
  }

  lemma DistinctDropped(list: seq<Segment>, k: int)
    requires Distinct(list) && -1 <= k < |list|
    ensures Distinct(Dropped(list, k)) && |Dropped(list, k)| == if k < 0 then |list| else |list| - 1
    ensures k < 0 ==> Dropped(list, k) == list
  {
  }

  lemma DistinctCons(x: Segment, list: seq<Segment>)
    requires Distinct(list) && x !in list
    ensures Distinct([x] + list)
  {
  }

  /** Where position j is after position i was dropped. */
  lemma Moved(list: seq<Segment>, i: int, j: int)
    requires 0 <= i < |list| && 0 <= j < |list| && i != j
    ensures var k := if i < j then j - 1 else j; k < |Dropped(list, i)| && Dropped(list, i)[k] == list[j]
  {
  }

  lemma ValuesDropped(list: seq<Segment>, k: int)
    requires AllSegments(list) && -1 <= k < |list|
    ensures AllSegments(Dropped(list, k)) && Values(Dropped(list, k)) == Dropped(Values(list), k)
  {
    hide Values, Segment.Value, Dropped;
    PositionsDropped(list, k);
    DroppedByPosition(Values(list), Values(Dropped(list, k)), k);
  }

  lemma PositionsDropped<T>(s: seq<T>, k: int)
    requires -1 <= k < |s|
    ensures |Dropped(s, k)| == if k < 0 then |s| else |s| - 1
    ensures forall i :: 0 <= i < |Dropped(s, k)| ==> Dropped(s, k)[i] == s[if k < 0 || i < k then i else i + 1]
  {
  }

  lemma DroppedByPosition(v: seq<Piece>, w: seq<Piece>, k: int)
    requires -1 <= k < |v| && |w| == if k < 0 then |v| else |v| - 1
    requires forall i :: 0 <= i < |w| ==> w[i] == v[if k < 0 || i < k then i else i + 1]
    ensures w == Dropped(v, k)
  {
  }

  lemma ValuesWithoutTwo(list: seq<Segment>, i: int, j: int)
    requires AllSegments(list) && -1 <= i < |list| && -1 <= j < |list|
    requires i == j ==> i == -1
    ensures AllSegments(WithoutTwo(list, i, j)) && Values(WithoutTwo(list, i, j)) == WithoutTwo(Values(list), i, j)
  {
    hide Values, Segment.Value;
    ValuesDropped(list, i);
    ValuesDropped(Dropped(list, i), if 0 <= i < j then j - 1 else j);
  }

  lemma ValuesCons(x: Segment, list: seq<Segment>)
    requires x.Valid() && AllSegments(list)
    ensures AllSegments([x] + list) && Values([x] + list) == [x.Value()] + Values(list)
  {
    assert ([x] + list)[1..] == list;
  }

  /** Taking the joined pieces off the list behind the new one. */
  method RemoveTwo(x: Segment, list: seq<Segment>, mergeFirst: Segment?, mergeLast: Segment?,
                   ghost i: int, ghost j: int)
    returns (r: seq<Segment>)
    requires Distinct(list) && x !in list && -1 <= i < |list| && -1 <= j < |list|
    requires i == j ==> i == -1
    requires mergeFirst == At(list, i) && mergeLast == At(list, j)
    ensures r == [x] + WithoutTwo(list, i, j) && Distinct(r)
  {
    hide Dropped, Distinct;
    ghost var k := if 0 <= i < j then j - 1 else j;
    ghost var rest := Dropped(list, i);
    DistinctCons(x, list);
    DistinctDropped(list, i);
    DistinctDropped([x] + list, if i < 0 then -1 else i + 1);
    if i >= 0 {
      DroppedCons(x, list, i);
    }
    var shorter := Remove([x] + list, mergeFirst, if i < 0 then -1 else i + 1);
    if i >= 0 && j >= 0 {
      Moved(list, i, j);
    }
    if j >= 0 {
      DroppedCons(x, rest, k);
    } else {
      DistinctDropped(rest, -1);
    }
    DistinctDropped(shorter, if j < 0 then -1 else k + 1);
    r := Remove(shorter, mergeLast, if j < 0 then -1 else k + 1);
  }

  lemma MergeCoordinates(list: seq<Segment>, k: int, seg: Segment)
    requires AllSegments(list) && -1 <= k < |list| && seg.Valid()
    ensures Coordinates(seg) == seg.Value().pts && seg.Value().kind == seg.kind
    ensures At(list, k) != null ==> At(list, k).Valid()
    ensures Coordinates(At(list, k)) == SegmentSort.Coordinates(Values(list), k)
  {
    hide Values;
  }

  /** The joined piece goes to the front of the list, and the pieces it is made of go. */
  method Merge(list: seq<Segment>, seg: Segment, mergeFirst: Segment?, mergeLast: Segment?, ghost i: int, ghost j: int)
    returns (r: seq<Segment>)
    requires AllSegments(list) && Distinct(list) && seg.Valid()
    requires -1 <= i < |list| && -1 <= j < |list| && (i == j ==> i == -1)
    requires mergeFirst == At(list, i) && mergeLast == At(list, j)
    ensures r != [] && r[0].Valid() && fresh(r[0]) && fresh(r[0].pts) && Distinct(r)
    ensures mergeFirst != null ==> mergeFirst.Valid()
    ensures mergeLast != null ==> mergeLast.Valid()
    ensures r[0].Value() == Piece(seg.kind, Joined(Coordinates(mergeFirst), Coordinates(seg), Coordinates(mergeLast)))
    ensures r == [r[0]] + WithoutTwo(list, i, j)
  {
    hide Joined, WithoutTwo, Dropped, Distinct, Coordinates;
    var longer := Insert(list, mergeFirst, seg, mergeLast);
    assert longer == [longer[0]] + list;
    r := RemoveTwo(longer[0], list, mergeFirst, mergeLast, i, j);
  }

  /** One round of the sort. */
  method AddSegment(list: seq<Segment>, seg: Segment) returns (r: seq<Segment>)
    requires AllSegments(list) && Distinct(list) && seg.Valid()
    ensures AllSegments(r) && Distinct(r)
    ensures r != [] && fresh(r[0]) && fresh(r[0].pts) && forall i :: 0 < i < |r| ==> r[i] in list
    ensures Values(r) == Add(Values(list), seg.Value())
  {
    hide Values, LastMatch, Chosen, Joined, WithoutTwo, Dropped, Distinct, Coordinates, SegmentSort.Coordinates, At;
    ghost var m := Chosen(Values(list), seg.Value());
    ghost var values := Values(list);
    var mergeFirst, mergeLast := FindMatches(list, seg);
    r := Merge(list, seg, mergeFirst, mergeLast, m.0, m.1);
    assert Values(list) == values;
    MergeCoordinates(list, m.0, seg);
    MergeCoordinates(list, m.1, seg);
    ValuesWithoutTwo(list, m.0, m.1);
    ValuesCons(r[0], WithoutTwo(list, m.0, m.1));
  }

  /** Which side of a directed ring is inside: the sign of its area tells. */
  function Oriented(p: Piece, kind: Kind): (r: Piece)
    requires p.Valid()
    ensures r.pts == p.pts
  {
    if p.Closed() && kind == RightSide && p.kind == RightSide then
      p.(kind := if Area(p.pts) > 0 then Outer else Inner)
    else p
  }

  /** A ring of right sides is outer if it turns right, with the inside on that side, and inner if it turns left. */
  lemma TurningTells(o: Coord, w: int, h: int)
    requires w > 0 && h > 0
    ensures var ring := Rectangle(o, w, h) + [o];
      && Oriented(Piece(RightSide, ring), RightSide).kind == Inner
      && Oriented(Piece(RightSide, Reversed(ring)), RightSide).kind == Outer
  {
    hide Reversed, Area;
    var ring := Rectangle(o, w, h) + [o];
    RingArea(o, w, h);
    AreaReversed(ring);
    ReversedAt(ring, 0);
    ReversedAt(ring, 4);
    Positive(w, h);
  }

  lemma Positive(w: int, h: int)
    requires w > 0 && h > 0
    ensures w * h > 0
  {
  }

  /** Naming the first vertex again at the end does not change the area. */
  lemma RingArea(o: Coord, w: int, h: int)
    ensures Area(Rectangle(o, w, h) + [o]) == -(w * h)
  {
    var s := Rectangle(o, w, h);
    RectangleArea(o, w, h);
    PairSumAppend(Trapezoid(), s + [o], o);
  }

  /** geom_poly_segments_sort */
  method Sort(input: seq<Segment>, kind: Kind) returns (ret: seq<Segment>)
    requires AllSegments(input)
    ensures AllSegments(ret) && Distinct(ret) && forall i :: 0 <= i < |ret| ==> fresh(ret[i])
    ensures var pieces := Assembled(Values(input));
      |ret| == |pieces| && forall i :: 0 <= i < |ret| ==> ret[i].Value() == Oriented(pieces[i], kind)
  {
    hide Values, Add;
    ret := [];
    ghost var values := Values(input);
    assert values[..0] == [];
    NoValues();
    for i := 0 to |input|
      invariant AllSegments(ret) && Distinct(ret) && forall k :: 0 <= k < |ret| ==> fresh(ret[k])
      invariant Values(ret) == Assembled(values[..i])
    {
      AssembledLast(values, i);
      ret := AddSegment(ret, input[i]);
    }
    assert values[..|input|] == values;
    Orient(ret, kind);
  }

  lemma NoValues()
    ensures Values([]) == [] && Assembled([]) == []
  {
  }

  lemma AssembledLast(values: seq<Piece>, i: nat)
    requires AllValid(values) && i < |values|
    ensures Assembled(values[..i + 1]) == Add(Assembled(values[..i]), values[i])
  {
    assert values[..i + 1][..i] == values[..i];
  }

  /** The second loop of the sort: rings of directed pieces become outer or inner. */
  method Orient(list: seq<Segment>, kind: Kind)
    requires AllSegments(list) && Distinct(list)
    modifies list
    ensures forall i :: 0 <= i < |list| ==> list[i].Value() == Oriented(old(list[i].Value()), kind)
  {
    for i := 0 to |list|
      invariant forall k :: 0 <= k < i ==> list[k].Value() == Oriented(old(list[k].Value()), kind)
      invariant forall k :: i <= k < |list| ==> list[k].Value() == old(list[k].Value())
    {
      var seg := list[i];
      if seg.pts[0] == seg.pts[seg.last] {
        var area := PolyArea(seg.pts, seg.last + 1);
        if kind == RightSide && seg.kind == RightSide {
          seg.kind := if area > 0 then Outer else Inner;
        }
      }
    }
  }
}
