/**
 * Pieces with a direction, such as coastlines: when every coordinate starts at most one
 * piece and ends as many, all rings close and no piece is turned around.
 */
module SegmentOneWay {
  import opened Coords
  import opened SegmentSort
  import opened SegmentRings

  predicate OneWay(kind: Kind) { kind == LeftSide || kind == RightSide }

  function End(p: Piece, start: bool): Coord
    requires p.Valid()
  {
    if start then p.First() else p.Last()
  }

  /** How often a coordinate is the start, or the stop, of a piece. */
  ghost function EndsAt(list: seq<Piece>, start: bool): multiset<Coord>
    requires AllValid(list)
  {
    if list == [] then multiset{} else EndsAt(list[..|list| - 1], start) + multiset{End(list[|list| - 1], start)}
  }

  ghost function OpenEnd(p: Piece, start: bool): multiset<Coord>
    requires p.Valid()
  {
    if p.Closed() then multiset{} else multiset{End(p, start)}
  }

  ghost function OpenAt(list: seq<Piece>, start: bool): multiset<Coord>
    requires AllValid(list)
  {
    if list == [] then multiset{} else OpenEnd(list[0], start) + OpenAt(list[1..], start)
  }

  lemma OpenAtCons(p: Piece, list: seq<Piece>, start: bool)
    requires p.Valid() && AllValid(list)
    ensures AllValid([p] + list) && OpenAt([p] + list, start) == OpenEnd(p, start) + OpenAt(list, start)
  {
    assert ([p] + list)[1..] == list;
  }

  lemma {:induction false} OpenAtDropped(list: seq<Piece>, k: int, start: bool)
    requires AllValid(list) && 0 <= k < |list|
    ensures AllValid(Dropped(list, k))
    ensures OpenAt(list, start) == OpenAt(Dropped(list, k), start) + OpenEnd(list[k], start)
    decreases |list|
  {
    hide OpenAt, OpenEnd;
    var rest := list[1..];
    assert list == [list[0]] + rest;
    OpenAtCons(list[0], rest, start);
    if k == 0 {
      assert Dropped(list, 0) == rest;
    } else {
      OpenAtDropped(rest, k - 1, start);
      assert Dropped(list, k) == [list[0]] + Dropped(rest, k - 1);
      OpenAtCons(list[0], Dropped(rest, k - 1), start);
    }
  }

  lemma {:induction false} OpenAtOwner(list: seq<Piece>, v: Coord, start: bool) returns (k: int)
    requires AllValid(list) && v in OpenAt(list, start)
    ensures 0 <= k < |list| && End(list[k], start) == v && !list[k].Closed()
    decreases |list|
  {
    if v in OpenEnd(list[0], start) {
      k := 0;
    } else {
      k := OpenAtOwner(list[1..], v, start);
      k := k + 1;
    }
  }

  lemma OpenAtShows(list: seq<Piece>, i: int, start: bool)
    requires AllValid(list) && 0 <= i < |list| && !list[i].Closed()
    ensures OpenAt(list, start)[End(list[i], start)] >= 1
    ensures forall j :: 0 <= j < |list| && j != i && End(list[j], start) == End(list[i], start) && !list[j].Closed() ==>
      OpenAt(list, start)[End(list[i], start)] >= 2
  {
    hide OpenAt;
    var v := End(list[i], start);
    OpenAtDropped(list, i, start);
    forall j | 0 <= j < |list| && j != i && End(list[j], start) == v && !list[j].Closed()
      ensures OpenAt(list, start)[v] >= 2
    {
      var rest := Dropped(list, i);
      var k := if i < j then j - 1 else j;
      assert rest[k] == list[j];
      OpenAtDropped(rest, k, start);
    }
  }

  lemma OpenAtWithoutTwo(list: seq<Piece>, i: int, j: int, start: bool)
    requires AllValid(list) && -1 <= i < |list| && -1 <= j < |list|
    requires i == j ==> i == -1
    ensures AllValid(WithoutTwo(list, i, j))
    ensures OpenAt(list, start) == OpenAt(WithoutTwo(list, i, j), start)
      + (if i < 0 then multiset{} else OpenEnd(list[i], start))
      + (if j < 0 then multiset{} else OpenEnd(list[j], start))
  {
    hide OpenAt, Dropped, OpenEnd;
    Shift(list, i, j);
    if i >= 0 {
      OpenAtDropped(list, i, start);
    }
    if j >= 0 {
      OpenAtDropped(Dropped(list, i), if 0 <= i < j then j - 1 else j, start);
    }
  }

  /** The open ends while pieces with the given starts and stops are being added. */
  ghost predicate Chained(list: seq<Piece>, starts: multiset<Coord>, stops: multiset<Coord>, kind: Kind) {
    && AllOf(list, kind)
    && (forall v :: OpenAt(list, true)[v] == if starts[v] == 1 && stops[v] == 0 then 1 else 0)
    && (forall v :: OpenAt(list, false)[v] == if stops[v] == 1 && starts[v] == 0 then 1 else 0)
    && (forall i :: 0 <= i < |list| && list[i].Closed() ==> starts[list[i].First()] >= 1 && stops[list[i].First()] >= 1)
  }

  lemma OneWayMatches(s: Piece, c: Piece, atStart: bool)
    requires s.Valid() && c.Valid() && s.kind == c.kind && OneWay(s.kind)
    ensures Compatible(s, c, atStart) <==> End(c, !atStart) == End(s, atStart)
  {
  }

  /** The piece a new one is joined to at an end, and that no piece there runs the wrong way. */
  lemma MatchOneWay(list: seq<Piece>, starts: multiset<Coord>, stops: multiset<Coord>, s: Piece, atStart: bool)
    requires s.Valid() && OneWay(s.kind) && Chained(list, starts, stops, s.kind)
    requires var v := End(s, atStart);
      if atStart then starts[v] == 0 && stops[v] <= 1 else stops[v] == 0 && starts[v] <= 1
    ensures AllValid(list)
    ensures var v := End(s, atStart);
      var k := LastMatch(list, s, atStart);
      && (k >= 0 <==> (if atStart then stops else starts)[v] == 1)
      && (k >= 0 ==> End(list[k], !atStart) == v)
      && (forall i :: 0 <= i < |list| && End(list[i], !atStart) == v ==> i == k && !list[i].Closed())
      && (forall i :: 0 <= i < |list| ==> End(list[i], atStart) != v)
  {
    hide OpenAt;
    var v := End(s, atStart);
    var k := LastMatch(list, s, atStart);
    forall i | 0 <= i < |list|
      ensures Compatible(s, list[i], atStart) <==> End(list[i], !atStart) == v
    {
      OneWayMatches(s, list[i], atStart);
    }
    if (if atStart then stops else starts)[v] == 1 {
      var owner := OpenAtOwner(list, v, !atStart);
    }
    forall i | 0 <= i < |list|
      ensures End(list[i], atStart) != v
      ensures End(list[i], !atStart) == v ==> !list[i].Closed() && (if atStart then stops else starts)[v] == 1
    {
      if !list[i].Closed() {
        OpenAtShows(list, i, true);
        OpenAtShows(list, i, false);
      }
    }
    forall i, j | 0 <= i < |list| && 0 <= j < |list| && End(list[i], !atStart) == v && End(list[j], !atStart) == v
      ensures i == j
    {
      OpenAtShows(list, i, !atStart);
    }
  }

  /** The joined piece: nothing turned around, its ends, and when it is a ring. */
  lemma OneWayPiece(list: seq<Piece>, starts: multiset<Coord>, stops: multiset<Coord>, s: Piece)
    requires s.Valid() && OneWay(s.kind) && Chained(list, starts, stops, s.kind) && AllValid(list) && !s.Closed()
    requires starts[s.First()] == 0 && stops[s.First()] <= 1 && stops[s.Last()] == 0 && starts[s.Last()] <= 1
    ensures var m := Chosen(list, s);
      var p := Add(list, s)[0];
      && (m.0 >= 0 <==> stops[s.First()] == 1)
      && (m.0 >= 0 ==> !list[m.0].Closed() && list[m.0].Last() == s.First() && list[m.0].First() != s.First())
      && (m.1 >= 0 ==>
        !list[m.1].Closed() && list[m.1].First() == s.Last() && list[m.1].Last() != s.Last() && starts[s.Last()] == 1)
      && (m.1 < 0 && starts[s.Last()] == 1 ==> m.0 >= 0 && list[m.0].First() == s.Last())
      && (m.0 >= 0 && list[m.0].First() == s.Last() ==> m.1 < 0)
      && p.First() == (if m.0 < 0 then s.First() else list[m.0].First())
      && p.Last() == (if m.1 < 0 then s.Last() else list[m.1].Last())
  {
    hide OpenAt, Joined, LastMatch, Chained, WithoutTwo;
    MatchOneWay(list, starts, stops, s, true);
    MatchOneWay(list, starts, stops, s, false);
    ChosenFits(list, s);
    var m := Chosen(list, s);
    JoinedEnds(Coordinates(list, m.0), s.pts, Coordinates(list, m.1));
  }

  lemma OneWayRing(list: seq<Piece>, starts: multiset<Coord>, stops: multiset<Coord>, s: Piece)
    requires s.Valid() && OneWay(s.kind) && Chained(list, starts, stops, s.kind) && AllValid(list) && !s.Closed()
    requires starts[s.First()] == 0 && stops[s.First()] <= 1 && stops[s.Last()] == 0 && starts[s.Last()] <= 1
    ensures var m := Chosen(list, s);
      Add(list, s)[0].Closed() <==> m.0 >= 0 && list[m.0].First() == s.Last()
    ensures Add(list, s)[0].Closed() ==> starts[s.Last()] == 1 && Add(list, s)[0].First() == s.Last()
  {
    hide OpenAt, Chosen, Add;
    OneWayPiece(list, starts, stops, s);
    var m := Chosen(list, s);
    if m.0 >= 0 {
      OpenAtShows(list, m.0, true);
    }
    if m.1 >= 0 {
      OpenAtShows(list, m.1, false);
    }
  }

  /** The exchange of ends in one round: x joins the list unless a piece there already goes on to it. */
  lemma BalanceStarts(after: multiset<Coord>, before: multiset<Coord>, rest: multiset<Coord>,
                      a: Coord, b: Coord, c: Coord, f: bool, t: bool, ring: bool)
    requires before == rest + (if f then multiset{c} else multiset{}) + (if t then multiset{b} else multiset{})
    requires after == (if ring then multiset{} else multiset{if f then c else a}) + rest
    requires ring ==> f && !t && c == b
    ensures after + (if t || ring then multiset{b} else multiset{}) == before + (if f then multiset{} else multiset{a})
  {
  }

  lemma BalanceStops(after: multiset<Coord>, before: multiset<Coord>, rest: multiset<Coord>,
                     a: Coord, b: Coord, d: Coord, f: bool, t: bool, ring: bool)
    requires before == rest + (if f then multiset{a} else multiset{}) + (if t then multiset{d} else multiset{})
    requires after == (if ring then multiset{} else multiset{if t then d else b}) + rest
    requires ring ==> f && !t
    ensures after + (if f then multiset{a} else multiset{}) == before + (if t || ring then multiset{} else multiset{b})
  {
  }

  lemma OpenEndOf(p: Piece, start: bool)
    requires p.Valid()
    ensures OpenEnd(p, start) == if p.Closed() then multiset{} else multiset{if start then p.First() else p.Last()}
  {
  }

  lemma OpenAtAfter(list: seq<Piece>, starts: multiset<Coord>, stops: multiset<Coord>, s: Piece)
    requires s.Valid() && OneWay(s.kind) && Chained(list, starts, stops, s.kind) && AllValid(list) && !s.Closed()
    requires starts[s.First()] == 0 && stops[s.First()] <= 1 && stops[s.Last()] == 0 && starts[s.Last()] <= 1
    ensures OpenAt(Add(list, s), true) + Once(s.Last(), starts) == OpenAt(list, true) + Never(s.First(), stops)
    ensures OpenAt(Add(list, s), false) + Once(s.First(), stops) == OpenAt(list, false) + Never(s.Last(), starts)
  {
    hide OpenAt, OpenEnd, Chosen, WithoutTwo, Chained, Joined;
    OneWayPiece(list, starts, stops, s);
    OneWayRing(list, starts, stops, s);
    var m := Chosen(list, s);
    var p := Add(list, s)[0];
    var rest := WithoutTwo(list, m.0, m.1);
    assert Add(list, s) == [p] + rest;
    hide Add;
    var f, t, ring := m.0 >= 0, m.1 >= 0, p.Closed();
    if f { OpenEndOf(list[m.0], true); OpenEndOf(list[m.0], false); }
    if t { OpenEndOf(list[m.1], true); OpenEndOf(list[m.1], false); }
    OpenEndOf(p, true); OpenEndOf(p, false);
    OpenAtWithoutTwo(list, m.0, m.1, true);
    OpenAtCons(p, rest, true);
    BalanceStarts(OpenAt(Add(list, s), true), OpenAt(list, true), OpenAt(rest, true), s.First(), s.Last(),
                  if f then list[m.0].First() else s.First(), f, t, ring);
    OpenAtWithoutTwo(list, m.0, m.1, false);
    OpenAtCons(p, rest, false);
    BalanceStops(OpenAt(Add(list, s), false), OpenAt(list, false), OpenAt(rest, false), s.First(), s.Last(),
                 if t then list[m.1].Last() else s.Last(), f, t, ring);
  }

  lemma ClosedAlone(list: seq<Piece>, starts: multiset<Coord>, stops: multiset<Coord>, s: Piece)
    requires s.Valid() && OneWay(s.kind) && Chained(list, starts, stops, s.kind) && AllValid(list)
    requires s.Closed() && starts[s.First()] == 0 && stops[s.First()] == 0
    ensures Add(list, s) == [s] + list
  {
    hide OpenAt, LastMatch, Chained;
    MatchOneWay(list, starts, stops, s, true);
    MatchOneWay(list, starts, stops, s, false);
    assert [] + s.pts == s.pts;
  }

  /** The open ends after an open piece was added. */
  lemma ChainedEnds(list: seq<Piece>, starts: multiset<Coord>, stops: multiset<Coord>, s: Piece)
    requires s.Valid() && OneWay(s.kind) && Chained(list, starts, stops, s.kind) && AllValid(list) && !s.Closed()
    requires forall v :: (starts + multiset{s.First()})[v] <= 1 && (stops + multiset{s.Last()})[v] <= 1
    ensures var starts', stops' := starts + multiset{s.First()}, stops + multiset{s.Last()};
      forall v ::
        && OpenAt(Add(list, s), true)[v] == (if starts'[v] == 1 && stops'[v] == 0 then 1 else 0)
        && OpenAt(Add(list, s), false)[v] == (if stops'[v] == 1 && starts'[v] == 0 then 1 else 0)
  {
    hide OpenAt, Add;
    var a, b := s.First(), s.Last();
    var starts', stops' := starts + multiset{a}, stops + multiset{b};
    assert starts'[a] <= 1 && stops'[b] <= 1 && starts'[b] <= 1 && stops'[a] <= 1;
    OpenAtAfter(list, starts, stops, s);
    forall v
      ensures OpenAt(Add(list, s), true)[v] == if starts'[v] == 1 && stops'[v] == 0 then 1 else 0
      ensures OpenAt(Add(list, s), false)[v] == if stops'[v] == 1 && starts'[v] == 0 then 1 else 0
    {
      assert (OpenAt(Add(list, s), true) + Once(b, starts))[v] == (OpenAt(list, true) + Never(a, stops))[v];
      assert (OpenAt(Add(list, s), false) + Once(a, stops))[v] == (OpenAt(list, false) + Never(b, starts))[v];
      assert starts'[v] <= 1 && stops'[v] <= 1;
      assert OpenAt(list, true)[v] == if starts[v] == 1 && stops[v] == 0 then 1 else 0;
      assert OpenAt(list, false)[v] == if stops[v] == 1 && starts[v] == 0 then 1 else 0;
    }
  }

  /** Where the rings are after an open piece was added. */
  lemma ChainedRings(list: seq<Piece>, starts: multiset<Coord>, stops: multiset<Coord>, s: Piece)
    requires s.Valid() && OneWay(s.kind) && Chained(list, starts, stops, s.kind) && AllValid(list) && !s.Closed()
    requires starts[s.First()] == 0 && stops[s.First()] <= 1 && stops[s.Last()] == 0 && starts[s.Last()] <= 1
    ensures forall i :: 0 <= i < |Add(list, s)| && Add(list, s)[i].Closed() ==>
      && (starts + multiset{s.First()})[Add(list, s)[i].First()] >= 1
      && (stops + multiset{s.Last()})[Add(list, s)[i].First()] >= 1
  {
    hide OpenAt, Add;
    AddKinds(list, s);
    OneWayRing(list, starts, stops, s);
    forall i | 0 < i < |Add(list, s)| && Add(list, s)[i].Closed()
      ensures starts[Add(list, s)[i].First()] >= 1 && stops[Add(list, s)[i].First()] >= 1
    {
      var k :| 0 <= k < |list| && list[k] == Add(list, s)[i];
    }
  }

  lemma ChainedStep(list: seq<Piece>, starts: multiset<Coord>, stops: multiset<Coord>, s: Piece)
    requires s.Valid() && OneWay(s.kind) && Chained(list, starts, stops, s.kind)
    requires forall v :: (starts + multiset{s.First()})[v] <= 1 && (stops + multiset{s.Last()})[v] <= 1
    ensures Chained(Add(list, s), starts + multiset{s.First()}, stops + multiset{s.Last()}, s.kind)
    ensures AllValid(list) && Seen(Add(list, s), Every(Along)) == Seen(list, Every(Along)) + Shown(s, Every(Along))
  {
    hide OpenAt, Add, Seen;
    AddKinds(list, s);
    var a, b := s.First(), s.Last();
    assert (starts + multiset{a})[a] <= 1 && (stops + multiset{b})[b] <= 1;
    assert (starts + multiset{a})[b] <= 1 && (stops + multiset{b})[a] <= 1;
    if s.Closed() {
      ClosedAlone(list, starts, stops, s);
      OpenAtCons(s, list, true);
      OpenAtCons(s, list, false);
      SeenCons(s, list, Every(Along));
    } else {
      ChainedEnds(list, starts, stops, s);
      ChainedRings(list, starts, stops, s);
      AddDirected(list, starts, stops, s);
    }
  }

  /** No piece is turned around, so edges keep their direction. */
  lemma AddDirected(list: seq<Piece>, starts: multiset<Coord>, stops: multiset<Coord>, s: Piece)
    requires s.Valid() && OneWay(s.kind) && Chained(list, starts, stops, s.kind) && AllValid(list) && !s.Closed()
    requires starts[s.First()] == 0 && stops[s.First()] <= 1 && stops[s.Last()] == 0 && starts[s.Last()] <= 1
    ensures Seen(Add(list, s), Every(Along)) == Seen(list, Every(Along)) + Shown(s, Every(Along))
  {
    hide Edges, Seen, Fits, Chosen, Chained, OpenAt, Joined;
    OneWayPiece(list, starts, stops, s);
    var m := Chosen(list, s);
    ChosenFits(list, s);
    EdgesJoined(Coordinates(list, m.0), s.pts, Coordinates(list, m.1), Along);
    EdgesOne(Coord(0, 0), Along);
    AddSeen(list, s, Every(Along));
  }

  lemma {:induction false} ChainedRun(input: seq<Piece>, kind: Kind)
    requires OneWay(kind) && AllOf(input, kind)
    requires forall v :: EndsAt(input, true)[v] <= 1 && EndsAt(input, false)[v] <= 1
    ensures Chained(Assembled(input), EndsAt(input, true), EndsAt(input, false), kind)
    ensures Seen(Assembled(input), Every(Along)) == Seen(input, Every(Along))
    decreases |input|
  {
    hide Add, OpenAt, Seen, Edges, Chained, EndsAt;
    if input != [] {
      var n := |input| - 1;
      var starts, stops := EndsAt(input[..n], true), EndsAt(input[..n], false);
      EndsAtLast(input);
      assert forall v :: starts[v] <= EndsAt(input, true)[v] && stops[v] <= EndsAt(input, false)[v];
      ChainedRun(input[..n], kind);
      ChainedStep(Assembled(input[..n]), starts, stops, input[n]);
      SeenLast(input, Every(Along));
    } else {
      NothingChained(kind);
    }
  }

  lemma EndsAtLast(input: seq<Piece>)
    requires AllValid(input) && input != []
    ensures EndsAt(input, true) == EndsAt(input[..|input| - 1], true) + multiset{input[|input| - 1].First()}
    ensures EndsAt(input, false) == EndsAt(input[..|input| - 1], false) + multiset{input[|input| - 1].Last()}
  {
  }

  lemma NothingChained(kind: Kind)
    ensures Chained([], EndsAt([], true), EndsAt([], false), kind)
  {
  }

  /**
   * Closure of directed pieces: when every coordinate starts at most one piece and stops as
   * many as it starts, only closed rings come out and every edge keeps its direction.
   */
  lemma DirectedRingsClose(input: seq<Piece>, kind: Kind)
    requires OneWay(kind) && AllOf(input, kind)
    requires forall v :: EndsAt(input, true)[v] == EndsAt(input, false)[v] <= 1
    ensures forall i :: 0 <= i < |Assembled(input)| ==> Assembled(input)[i].Closed()
    ensures Seen(Assembled(input), Every(Along)) == Seen(input, Every(Along))
  {
    hide Assembled, OpenAt, EndsAt;
    ChainedRun(input, kind);
    var rings := Assembled(input);
    forall i | 0 <= i < |rings|
      ensures rings[i].Closed()
    {
      if !rings[i].Closed() {
        OpenAtShows(rings, i, true);
      }
    }
  }
}
