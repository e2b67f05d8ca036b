/**
 * Pieces of different kinds stay apart when they are assembled (navit/geom.c): edges are conserved for each
 * kind, and of directed pieces with the side they have on the left.
 */
module SegmentKinds {
  import opened Coords
  import opened SegmentSort
  import opened SegmentRings

  // ----------------------------------------------------------------- joining

  ghost predicate AllKnown(list: seq<Piece>) {
    forall i :: 0 <= i < |list| ==> list[i].Valid() && list[i].kind != UnknownKind
  }

  predicate OneSided(kind: Kind) { kind == LeftSide || kind == RightSide }

  /**
   * Pieces of known kinds are joined only to pieces of their kind, but for left sides with right sides; those
   * meet where both start or where both end, so that one is turned around.
   */
  lemma KnownKindsMeet(s: Piece, c: Piece, atStart: bool)
    requires s.Valid() && c.Valid() && s.kind != UnknownKind && c.kind != UnknownKind && Compatible(s, c, atStart)
    ensures s.kind != NoKind && (s.kind == c.kind || (OneSided(s.kind) && OneSided(c.kind)))
    ensures OneSided(s.kind) ==>
      if s.kind == c.kind then if atStart then c.Last() == s.First() else c.First() == s.Last()
      else if atStart then c.First() == s.First() else c.Last() == s.Last()
  {
  }

  /** A one-sided piece that is joined is turned around just if it is of the other side, unless it is a ring. */
  lemma SidesTurn(s: Piece, c: Piece, atStart: bool)
    requires s.Valid() && c.Valid() && OneSided(s.kind) && OneSided(c.kind) && !c.Closed() && Compatible(s, c, atStart)
    ensures (if atStart then c.First() == s.First() else c.Last() == s.Last()) <==> s.kind != c.kind
  {
  }

  /** Whether no piece that is joined is a ring already. */
  ghost predicate NoRing(list: seq<Piece>, k: int)
    requires AllValid(list) && -1 <= k < |list|
  {
    k < 0 || !list[k].Closed()
  }

  lemma JoinSeenAs(list: seq<Piece>, s: Piece, look: Look)
    requires AllValid(list) && s.Valid()
    ensures var m := Chosen(list, s);
      Edges(Joined(Coordinates(list, m.0), s.pts, Coordinates(list, m.1)), look) ==
        (if m.0 < 0 then multiset{}
         else Edges(list[m.0].pts, TurnedIf(list[m.0].First() == s.First(), look)))
        + Edges(s.pts, look)
        + (if m.1 < 0 then multiset{}
           else Edges(list[m.1].pts, TurnedIf(list[m.1].Last() == s.Last(), look)))
  {
    hide Edges, Joined, Chosen, TurnedIf;
    var m := Chosen(list, s);
    ChosenFits(list, s);
    EdgesJoined(Coordinates(list, m.0), s.pts, Coordinates(list, m.1), look);
    EdgesOne(Coord(0, 0), look);
    EdgesOne(Coord(0, 0), TurnedIf(false, look));
  }

  /** How a side is looked at so that it is on the left */
  function LookOf(kind: Kind): Look { if kind == RightSide then Against else Along }

  lemma SidePart(s: Piece, c: Piece, atStart: bool)
    requires s.Valid() && c.Valid() && s.kind != UnknownKind && c.kind != UnknownKind && Compatible(s, c, atStart)
    requires !c.Closed()
    ensures OneSided(s.kind) ==>
      Shown(c, Sides) ==
        Edges(c.pts, TurnedIf(if atStart then c.First() == s.First() else c.Last() == s.Last(), LookOf(s.kind)))
    ensures !OneSided(s.kind) ==> Shown(c, Sides) == multiset{}
  {
    hide Edges, Compatible;
    KnownKindsMeet(s, c, atStart);
    if OneSided(s.kind) {
      SidesTurn(s, c, atStart);
    }
  }

  lemma JoinedKind(list: seq<Piece>, s: Piece, kind: Kind)
    requires AllValid(list) && AllKnown(list) && s.Valid() && s.kind != UnknownKind
    requires kind == NoKind || kind == Inner || kind == Outer
    ensures var m, view := Chosen(list, s), OfKind(kind);
      Shown(Piece(s.kind, Joined(Coordinates(list, m.0), s.pts, Coordinates(list, m.1))), view) ==
        SeenAt(list, m.0, view) + Shown(s, view) + SeenAt(list, m.1, view)
  {
    hide Edges, Joined, Compatible, Chosen;
    var m := Chosen(list, s);
    ChosenMatch(list, s);
    JoinSeenAs(list, s, AsLine);
    KindParts(list, s, kind);
  }

  lemma KindParts(list: seq<Piece>, s: Piece, kind: Kind)
    requires AllValid(list) && AllKnown(list) && s.Valid() && s.kind != UnknownKind
    requires kind == NoKind || kind == Inner || kind == Outer
    ensures var m := Chosen(list, s);
      && (m.0 >= 0 ==> (list[m.0].kind == kind <==> s.kind == kind))
      && (m.1 >= 0 ==> (list[m.1].kind == kind <==> s.kind == kind))
  {
    hide Compatible, Chosen;
    var m := Chosen(list, s);
    ChosenMatch(list, s);
    if m.0 >= 0 {
      KnownKindsMeet(s, list[m.0], true);
    }
    if m.1 >= 0 {
      KnownKindsMeet(s, list[m.1], false);
    }
  }

  lemma ChosenMatch(list: seq<Piece>, s: Piece)
    requires AllValid(list) && s.Valid()
    ensures var m := Chosen(list, s);
      (m.0 >= 0 ==> Compatible(s, list[m.0], true)) && (m.1 >= 0 ==> Compatible(s, list[m.1], false))
  {
  }

  lemma JoinedSides(list: seq<Piece>, s: Piece)
    requires AllValid(list) && AllKnown(list) && s.Valid() && s.kind != UnknownKind
    requires NoRing(list, Chosen(list, s).0) && NoRing(list, Chosen(list, s).1)
    ensures var m := Chosen(list, s);
      Shown(Piece(s.kind, Joined(Coordinates(list, m.0), s.pts, Coordinates(list, m.1))), Sides) ==
        SeenAt(list, m.0, Sides) + Shown(s, Sides) + SeenAt(list, m.1, Sides)
  {
    hide Edges, Joined, Compatible, Chosen, TurnedIf;
    var m := Chosen(list, s);
    ChosenMatch(list, s);
    JoinSeenAs(list, s, LookOf(s.kind));
    if m.0 >= 0 {
      SidePart(s, list[m.0], true);
    }
    if m.1 >= 0 {
      SidePart(s, list[m.1], false);
    }
  }

  lemma AddKnown(list: seq<Piece>, s: Piece)
    requires AllValid(list) && AllKnown(list) && s.Valid() && s.kind != UnknownKind
    ensures AllKnown(Add(list, s))
  {
    hide Joined, Chosen;
  }

  lemma {:induction false} AllStayKnown(input: seq<Piece>)
    requires AllKnown(input) && AllValid(input)
    ensures AllKnown(Assembled(input))
  {
    hide Add;
    if input != [] {
      var n := |input| - 1;
      AllStayKnown(input[..n]);
      AddKnown(Assembled(input[..n]), input[n]);
    }
  }

  /**
   * If every piece has a kind, the assembled inner pieces have the edges of the inner pieces that went in, each
   * as often, the outer ones those of the outer ones, and those of no kind those of no kind.
   */
  lemma {:induction false} KindsApart(input: seq<Piece>, kind: Kind)
    requires AllValid(input) && AllKnown(input) && (kind == NoKind || kind == Inner || kind == Outer)
    ensures Seen(Assembled(input), OfKind(kind)) == Seen(input, OfKind(kind))
    decreases |input|
  {
    hide Add, Seen, Shown;
    if input == [] {
      assert Assembled(input) == input;
    } else {
      var n := |input| - 1;
      KindsApart(input[..n], kind);
      AllStayKnown(input[..n]);
      JoinedKind(Assembled(input[..n]), input[n], kind);
      AddSeen(Assembled(input[..n]), input[n], OfKind(kind));
      SeenLast(input, OfKind(kind));
    }
  }

  // ------------------------------------------------------------------- sides

  /** No more than two pieces end at a coordinate; a ring counts twice. */
  ghost predicate EndsPair(list: seq<Piece>) {
    forall v: Coord :: Seen(list, Ends)[(v, v)] <= 2
  }

  /** A join has no ends but those of its parts. */
  lemma AddEnds(list: seq<Piece>, s: Piece)
    requires AllValid(list) && s.Valid()
    ensures Seen(Add(list, s), Ends) <= Seen(list, Ends) + Shown(s, Ends)
  {
    hide Seen, Shown, Joined, Chosen, WithoutTwo, SeenAt;
    var m := Chosen(list, s);
    SeenWithoutTwo(list, m.0, m.1, Ends);
    SeenCons(Piece(s.kind, Joined(Coordinates(list, m.0), s.pts, Coordinates(list, m.1))),
             WithoutTwo(list, m.0, m.1), Ends);
    EndsWithin(list, s);
  }

  lemma EndsWithin(list: seq<Piece>, s: Piece)
    requires AllValid(list) && s.Valid()
    ensures var m := Chosen(list, s);
      Shown(Piece(s.kind, Joined(Coordinates(list, m.0), s.pts, Coordinates(list, m.1))), Ends) <=
        SeenAt(list, m.0, Ends) + Shown(s, Ends) + SeenAt(list, m.1, Ends)
  {
    hide Shown, Joined, Chosen, Coordinates, SeenAt;
    var m := Chosen(list, s);
    var f, t := Coordinates(list, m.0), Coordinates(list, m.1);
    ChosenFits(list, s);
    JoinedEnds(f, s.pts, t);
    var j := Joined(f, s.pts, t);
    EndsSeen(Piece(s.kind, j));
    EndsSeen(s);
    EndOfPart(list, m.0, s.First(), j[0]);
    EndOfPart(list, m.1, s.Last(), j[|j| - 1]);
    EndsSum(Here(j[0]), Here(j[|j| - 1]), SeenAt(list, m.0, Ends), Here(s.First()), Here(s.Last()),
            SeenAt(list, m.1, Ends));
  }

  /** A coordinate as an edge to itself */
  function Here(v: Coord): (Coord, Coord) { (v, v) }

  lemma EndOfPart(list: seq<Piece>, k: int, own: Coord, v: Coord)
    requires AllValid(list) && -1 <= k < |list|
    requires var f := Coordinates(list, k); if f == [] then v == own else v == f[0] || v == f[|f| - 1]
    ensures Here(v) in SeenAt(list, k, Ends) || v == own
  {
  }

  lemma EndsSeen(p: Piece)
    requires p.Valid()
    ensures Shown(p, Ends) == multiset{Here(p.First())} + multiset{Here(p.Last())}
  {
  }

  /** Each end of a join is an end of the part in front or behind, or of the piece itself. */
  lemma EndsSum(x: (Coord, Coord), y: (Coord, Coord), front: multiset<(Coord, Coord)>,
                first: (Coord, Coord), last: (Coord, Coord), back: multiset<(Coord, Coord)>)
    requires (x in front || x == first) && (y in back || y == last)
    ensures multiset{x} + multiset{y} <= front + (multiset{first} + multiset{last}) + back
  {
    assert multiset{x} <= front + multiset{first};
    assert multiset{y} <= multiset{last} + back;
  }

  /** A ring in the list uses up its coordinate. */
  lemma RingIsUsedUp(list: seq<Piece>, s: Piece, k: int)
    requires AllValid(list) && s.Valid() && 0 <= k < |list| && list[k].Closed()
    requires list[k].First() == s.First() || list[k].First() == s.Last()
    ensures (Seen(list, Ends) + Shown(s, Ends))[(list[k].First(), list[k].First())] >= 3
  {
    hide Seen;
    SeenDropped(list, k, Ends);
    var e := (list[k].First(), list[k].First());
    assert Shown(list[k], Ends)[e] == 2;
    assert Shown(s, Ends)[e] >= 1;
  }

  lemma {:induction false} EndsStay(input: seq<Piece>)
    requires AllValid(input)
    ensures Seen(Assembled(input), Ends) <= Seen(input, Ends)
    decreases |input|
  {
    hide Add, Seen, Shown;
    if input == [] {
      assert Assembled(input) == input;
    } else {
      var n := |input| - 1;
      EndsStay(input[..n]);
      AddEnds(Assembled(input[..n]), input[n]);
      SeenLast(input, Ends);
    }
  }

  /**
   * If every piece has a kind and the ends pair up, the edges of left and right pieces keep the side they have
   * on their left, however pieces are turned around.
   */
  lemma {:induction false} SidesKept(input: seq<Piece>)
    requires AllValid(input) && AllKnown(input) && EndsPair(input)
    ensures Seen(Assembled(input), Sides) == Seen(input, Sides)
    decreases |input|
  {
    hide Add, Seen, Shown;
    if input == [] {
      assert Assembled(input) == input;
    } else {
      var n := |input| - 1;
      var list, s := Assembled(input[..n]), input[n];
      SeenLast(input, Ends);
      SeenLast(input, Sides);
      EndsStay(input[..n]);
      SidesKept(input[..n]);
      AllStayKnown(input[..n]);
      NoRings(list, s);
      JoinedSides(list, s);
      AddSeen(list, s, Sides);
    }
  }

  lemma NoRings(list: seq<Piece>, s: Piece)
    requires AllValid(list) && s.Valid()
    requires forall v: Coord :: (Seen(list, Ends) + Shown(s, Ends))[(v, v)] <= 2
    ensures NoRing(list, Chosen(list, s).0) && NoRing(list, Chosen(list, s).1)
  {
    hide Seen, Shown;
    var m := Chosen(list, s);
    if m.0 >= 0 && list[m.0].Closed() {
      RingIsUsedUp(list, s, m.0);
    }
    if m.1 >= 0 && list[m.1].Closed() {
      RingIsUsedUp(list, s, m.1);
    }
  }

  const A_RING := Piece(LeftSide, [Coord(0, 0), Coord(1, 0), Coord(1, 1), Coord(0, 0)])
  const A_LINE := Piece(LeftSide, [Coord(0, 0), Coord(5, 5)])

  /** A third end at a coordinate may turn a ring around, here where a line starts at a ring. */
  lemma ThirdEndTurnsRing()
    ensures AllValid([A_RING]) && AllKnown([A_RING])
    ensures (Coord(0, 0), Coord(1, 0)) in Seen([A_RING], Sides)
    ensures (Coord(0, 0), Coord(1, 0)) !in Seen(Add([A_RING], A_LINE), Sides)
  {
    hide Edges, Reversed, LastMatch, WithoutTwo, Joined, Chosen;
    RingIsChosen();
    RingReversed();
    var turned := [Coord(0, 0), Coord(1, 1), Coord(1, 0), Coord(0, 0), Coord(5, 5)];
    assert WithoutTwo([A_RING], 0, -1) == [];
    assert Add([A_RING], A_LINE) == [Piece(LeftSide, turned)];
    assert [A_RING][1..] == [] && [Piece(LeftSide, turned)][1..] == [];
    assert Seen([A_RING], Sides) == Edges(A_RING.pts, Along) + Seen([], Sides);
    assert Seen([Piece(LeftSide, turned)], Sides) == Edges(turned, Along) + Seen([], Sides);
    EdgesCons(Coord(0, 0), A_RING.pts[1..], Along);
    assert [Coord(0, 0)] + A_RING.pts[1..] == A_RING.pts;
    Four(turned);
  }

  lemma RingIsChosen()
    ensures Chosen([A_RING], A_LINE) == (0, -1) && WithoutTwo([A_RING], 0, -1) == []
  {
    assert [A_RING][..0] == [];
    assert LastMatch([A_RING], A_LINE, true) == 0;
    assert LastMatch([A_RING], A_LINE, false) == -1;
  }

  lemma RingReversed()
    ensures Joined(A_RING.pts, A_LINE.pts, []) == [Coord(0, 0), Coord(1, 1), Coord(1, 0), Coord(0, 0), Coord(5, 5)]
  {
    hide Reversed;
    ReversedAt(A_RING.pts, 0);
    ReversedAt(A_RING.pts, 1);
    ReversedAt(A_RING.pts, 2);
    ReversedAt(A_RING.pts, 3);
  }

  lemma Four(pts: seq<Coord>)
    requires |pts| == 5
    ensures Edges(pts, Along) ==
      multiset{(pts[0], pts[1])}
      + (multiset{(pts[1], pts[2])} + (multiset{(pts[2], pts[3])} + multiset{(pts[3], pts[4])}))
  {
    assert pts[1..][1..] == pts[2..] && pts[2..][1..] == pts[3..];
    assert Edges(pts[3..], Along) == multiset{(pts[3], pts[4])};
    assert Edges(pts[2..], Along) == multiset{(pts[2], pts[3])} + Edges(pts[3..], Along);
    assert Edges(pts[1..], Along) == multiset{(pts[1], pts[2])} + Edges(pts[2..], Along);
  }
}
