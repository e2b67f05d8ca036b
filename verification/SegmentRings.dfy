/**
 * When every ring closes: pieces whose ends pair up are assembled into closed rings only.
 */
module SegmentRings {
  import opened Coords
  import opened SegmentSort

  /** Kinds whose pieces may be joined in any direction. */
  predicate TwoWay(kind: Kind) { kind == Inner || kind == Outer || kind == UnknownKind }

  ghost predicate AllOf(list: seq<Piece>, kind: Kind) {
    forall i :: 0 <= i < |list| ==> list[i].kind == kind && list[i].Valid()
  }

  ghost function PieceEnds(p: Piece): multiset<Coord>
    requires p.Valid()
  {
    multiset{p.First(), p.Last()}
  }

  /** How often a coordinate is an end of a piece; both ends of a closed piece count. */
  ghost function AllEnds(list: seq<Piece>): multiset<Coord>
    requires AllValid(list)
  {
    if list == [] then multiset{} else AllEnds(list[..|list| - 1]) + PieceEnds(list[|list| - 1])
  }

  ghost function OpenOf(p: Piece): multiset<Coord>
    requires p.Valid()
  {
    if p.Closed() then multiset{} else PieceEnds(p)
  }

  /** The ends at which the list can still grow. */
  ghost function OpenEnds(list: seq<Piece>): multiset<Coord>
    requires AllValid(list)
  {
    if list == [] then multiset{} else OpenOf(list[0]) + OpenEnds(list[1..])
  }

  predicate Touches(p: Piece, v: Coord)
    requires p.Valid()
  {
    p.First() == v || p.Last() == v
  }

  lemma OpenEndsCons(p: Piece, list: seq<Piece>)
    requires p.Valid() && AllValid(list)
    ensures AllValid([p] + list) && OpenEnds([p] + list) == OpenOf(p) + OpenEnds(list)
  {
    assert ([p] + list)[1..] == list;
  }

  lemma {:induction false} OpenEndsDropped(list: seq<Piece>, k: int)
    requires AllValid(list) && 0 <= k < |list|
    ensures AllValid(Dropped(list, k))
    ensures OpenEnds(list) == OpenEnds(Dropped(list, k)) + OpenOf(list[k])
    decreases |list|
  {
    hide OpenEnds, OpenOf;
    var rest := list[1..];
    assert list == [list[0]] + rest;
    OpenEndsCons(list[0], rest);
    if k == 0 {
      assert Dropped(list, 0) == rest;
    } else {
      OpenEndsDropped(rest, k - 1);
      assert Dropped(list, k) == [list[0]] + Dropped(rest, k - 1);
      OpenEndsCons(list[0], Dropped(rest, k - 1));
    }
  }

  /** An open end belongs to an open piece. */
  lemma {:induction false} OpenEndOwner(list: seq<Piece>, v: Coord) returns (k: int)
    requires AllValid(list) && v in OpenEnds(list)
    ensures 0 <= k < |list| && Touches(list[k], v) && !list[k].Closed()
    decreases |list|
  {
    if v in OpenOf(list[0]) {
      k := 0;
    } else {
      k := OpenEndOwner(list[1..], v);
      k := k + 1;
    }
  }

  /** An open piece shows its ends, and two of them show a common end twice. */
  lemma OpenPieceShows(list: seq<Piece>, i: int, v: Coord)
    requires AllValid(list) && 0 <= i < |list| && Touches(list[i], v) && !list[i].Closed()
    ensures OpenEnds(list)[v] >= 1
    ensures forall j :: 0 <= j < |list| && j != i && Touches(list[j], v) && !list[j].Closed() ==> OpenEnds(list)[v] >= 2
  {
    hide OpenEnds;
    OpenEndsDropped(list, i);
    forall j | 0 <= j < |list| && j != i && Touches(list[j], v) && !list[j].Closed()
      ensures OpenEnds(list)[v] >= 2
    {
      var rest := Dropped(list, i);
      var k := if i < j then j - 1 else j;
      assert rest[k] == list[j];
      OpenEndsDropped(rest, k);
    }
  }

  /**
   * What the list looks like once pieces with ends `used` have been added: the open ends
   * are exactly the coordinates used once.
   */
  ghost predicate Paired(list: seq<Piece>, used: multiset<Coord>, kind: Kind) {
    && AllOf(list, kind)
    && (forall v :: OpenEnds(list)[v] == if used[v] == 1 then 1 else 0)
    && (forall i :: 0 <= i < |list| && list[i].Closed() ==> used[list[i].First()] >= 2)
  }

  lemma TwoWayMatches(s: Piece, c: Piece)
    requires s.Valid() && c.Valid() && s.kind == c.kind && TwoWay(s.kind)
    ensures Compatible(s, c, true) <==> Touches(c, s.First())
    ensures Compatible(s, c, false) <==> Touches(c, s.Last())
  {
  }

  /** The match for an end: the one open piece there, if the end has been used once, and none if never. */
  lemma MatchAt(list: seq<Piece>, used: multiset<Coord>, s: Piece, atStart: bool)
    requires s.Valid() && TwoWay(s.kind) && Paired(list, used, s.kind)
    requires used[if atStart then s.First() else s.Last()] <= 1
    ensures AllValid(list)
    ensures var v := if atStart then s.First() else s.Last();
      var k := LastMatch(list, s, atStart);
      && (k >= 0 <==> used[v] == 1)
      && (k >= 0 ==> Touches(list[k], v) && !list[k].Closed())
      && (forall i :: 0 <= i < |list| && Touches(list[i], v) ==> i == k)
  {
    hide OpenEnds;
    var v := if atStart then s.First() else s.Last();
    var k := LastMatch(list, s, atStart);
    forall i | 0 <= i < |list|
      ensures Compatible(s, list[i], atStart) <==> Touches(list[i], v)
    {
      TwoWayMatches(s, list[i]);
    }
    if used[v] == 1 {
      var owner := OpenEndOwner(list, v);
      OpenPieceShows(list, owner, v);
    }
    forall i | 0 <= i < |list| && Touches(list[i], v)
      ensures used[v] == 1 && !list[i].Closed()
    {
      if !list[i].Closed() {
        OpenPieceShows(list, i, v);
      }
    }
  }

  // ------------------------------------------------------------ one round

  /** The end of an open piece opposite to v. */
  function Other(p: Piece, v: Coord): Coord
    requires p.Valid() && Touches(p, v)
  {
    if p.First() == v then p.Last() else p.First()
  }

  /** Where a joined line starts and ends. */
  lemma JoinedEnds(f: seq<Coord>, s: seq<Coord>, t: seq<Coord>)
    requires Fits(f, s, t)
    ensures var j := Joined(f, s, t);
      && j[0] == (if f == [] then s[0] else if f[0] == s[0] then f[|f| - 1] else f[0])
      && j[|j| - 1] == (if t == [] then s[|s| - 1] else if t[|t| - 1] == s[|s| - 1] then t[0] else t[|t| - 1])
  {
    JointsMeet(f, s, t);
    if f != [] {
      ReversedAt(f, 0);
    }
    if t != [] {
      ReversedAt(t, |t| - 1);
    }
  }

  lemma OpenEndsWithoutTwo(list: seq<Piece>, i: int, j: int)
    requires AllValid(list) && -1 <= i < |list| && -1 <= j < |list|
    requires i == j ==> i == -1
    ensures AllValid(WithoutTwo(list, i, j))
    ensures OpenEnds(list) == OpenEnds(WithoutTwo(list, i, j))
      + (if i < 0 then multiset{} else OpenOf(list[i])) + (if j < 0 then multiset{} else OpenOf(list[j]))
  {
    hide OpenEnds, Dropped, OpenOf;
    Shift(list, i, j);
    if i >= 0 {
      OpenEndsDropped(list, i);
    }
    if j >= 0 {
      OpenEndsDropped(Dropped(list, i), if 0 <= i < j then j - 1 else j);
    }
  }

  /** The joined piece of a round, and its ends. */
  lemma NewPiece(list: seq<Piece>, used: multiset<Coord>, s: Piece)
    requires s.Valid() && TwoWay(s.kind) && Paired(list, used, s.kind) && AllValid(list)
    requires used[s.First()] <= 1 && used[s.Last()] <= 1 && !s.Closed()
    ensures var m := Chosen(list, s);
      var p := Add(list, s)[0];
      && (m.0 >= 0 <==> used[s.First()] == 1)
      && (m.1 >= 0 ==> used[s.Last()] == 1)
      && (m.1 < 0 && used[s.Last()] == 1 ==> m.0 >= 0 && Touches(list[m.0], s.Last()))
      && (m.0 >= 0 ==> !list[m.0].Closed() && Touches(list[m.0], s.First()))
      && (m.1 >= 0 ==> !list[m.1].Closed() && Touches(list[m.1], s.Last()) && !Touches(list[m.1], s.First()))
      && (m.0 >= 0 && Touches(list[m.0], s.Last()) ==> m.1 < 0)
      && p.First() == (if m.0 < 0 then s.First() else Other(list[m.0], s.First()))
      && p.Last() == (if m.1 < 0 then s.Last() else Other(list[m.1], s.Last()))
  {
    hide OpenEnds, Joined, LastMatch, Paired, WithoutTwo;
    MatchAt(list, used, s, true);
    MatchAt(list, used, s, false);
    ChosenFits(list, s);
    var m := Chosen(list, s);
    JoinedEnds(Coordinates(list, m.0), s.pts, Coordinates(list, m.1));
  }

  /** Those of v that have been used exactly once, or never. */
  ghost function Once(v: Coord, used: multiset<Coord>): multiset<Coord> {
    if used[v] == 1 then multiset{v} else multiset{}
  }

  ghost function Never(v: Coord, used: multiset<Coord>): multiset<Coord> {
    if used[v] == 0 then multiset{v} else multiset{}
  }

  /** The joined piece is a ring only when it closes one open piece with both its ends. */
  lemma NewPieceOpen(list: seq<Piece>, used: multiset<Coord>, s: Piece)
    requires s.Valid() && TwoWay(s.kind) && Paired(list, used, s.kind) && AllValid(list)
    requires used[s.First()] <= 1 && used[s.Last()] <= 1 && !s.Closed()
    ensures var m := Chosen(list, s);
      Add(list, s)[0].Closed() <==> m.0 >= 0 && Touches(list[m.0], s.Last())
  {
    NewPiece(list, used, s);
    hide OpenEnds, Chosen, Add, Touches;
    var m := Chosen(list, s);
    if m.0 >= 0 && m.1 >= 0 {
      OneOwner(list, used, m.0, m.1, s.kind);
    }
    Sides(s);
    if m.0 >= 0 { Sides(list[m.0]); }
    if m.1 >= 0 { Sides(list[m.1]); }
  }

  /** Different open pieces have different ends. */
  lemma OneOwner(list: seq<Piece>, used: multiset<Coord>, i: int, j: int, kind: Kind)
    requires Paired(list, used, kind) && AllValid(list) && 0 <= i < |list| && 0 <= j < |list| && i != j
    requires !list[i].Closed() && !list[j].Closed()
    ensures forall v :: Touches(list[i], v) ==> !Touches(list[j], v)
  {
    hide OpenEnds;
    forall v | Touches(list[i], v)
      ensures !Touches(list[j], v)
    {
      OpenPieceShows(list, i, v);
      assert OpenEnds(list)[v] <= 1;
    }
  }

  lemma Sides(p: Piece)
    requires p.Valid()
    ensures forall v :: Touches(p, v) <==> v == p.First() || v == p.Last()
    ensures forall v :: Touches(p, v) ==> Touches(p, Other(p, v))
    ensures !p.Closed() ==> forall v :: Touches(p, v) ==> Other(p, v) != v
  {
  }

  /** Each end of an open piece is taken off the open ends if it was there, and put there if not. */
  lemma OpenEndsAfter(list: seq<Piece>, used: multiset<Coord>, s: Piece)
    requires s.Valid() && TwoWay(s.kind) && Paired(list, used, s.kind) && AllValid(list)
    requires used[s.First()] <= 1 && used[s.Last()] <= 1 && !s.Closed()
    ensures OpenEnds(Add(list, s)) + Once(s.First(), used) + Once(s.Last(), used)
         == OpenEnds(list) + Never(s.First(), used) + Never(s.Last(), used)
  {
    hide OpenEnds, Chosen, WithoutTwo, Paired, Touches, Joined, OpenOf;
    NewPiece(list, used, s);
    NewPieceOpen(list, used, s);
    ClosedFresh(list, used, s);
    var m := Chosen(list, s);
    var p := Add(list, s)[0];
    var a, b := s.First(), s.Last();
    var rest := WithoutTwo(list, m.0, m.1);
    OpenEndsWithoutTwo(list, m.0, m.1);
    assert Add(list, s) == [p] + rest;
    OpenEndsCons(p, rest);
    hide Add, OpenOf, Other;
    var ring := p.Closed();
    var c := if m.0 >= 0 then Other(list[m.0], a) else a;
    var d := if m.1 >= 0 then Other(list[m.1], b) else b;
    if m.0 >= 0 {
      ShownEnds(list[m.0], a);
    }
    if m.1 >= 0 {
      ShownEnds(list[m.1], b);
    }
    if ring {
      BothEnds(list[m.0], a, b);
    }
    ShownNew(p);
    Balance(OpenEnds(Add(list, s)), OpenEnds(list), OpenEnds(rest), a, b, c, d, m.0 >= 0, m.1 >= 0, ring);
  }

  ghost function One(when: bool, v: Coord): (m: multiset<Coord>)
    ensures forall x :: m[x] == if when && x == v then 1 else 0
  {
    if when then multiset{v} else multiset{}
  }

  ghost function Two(when: bool, v: Coord, w: Coord): (m: multiset<Coord>)
    ensures m == One(when, v) + One(when, w)
  {
    if when then multiset{v, w} else multiset{}
  }

  /** The exchange of ends in one round, as multisets: c and d are the far ends of the pieces joined on. */
  lemma Balance(after: multiset<Coord>, before: multiset<Coord>, rest: multiset<Coord>,
                a: Coord, b: Coord, c: Coord, d: Coord, f: bool, t: bool, ring: bool)
    requires before == rest + Two(f, a, c) + Two(t, b, d)
    requires after == Two(!ring, if f then c else a, if t then d else b) + rest
    requires ring ==> f && !t && c == b
    ensures after + One(f, a) + One(t || ring, b) == before + One(!f, a) + One(!(t || ring), b)
  {
    hide One, Two;
    var left, right := after + One(f, a) + One(t || ring, b), before + One(!f, a) + One(!(t || ring), b);
    forall x: Coord
      ensures left[x] == right[x]
    {
    }
  }

  lemma ShownEnds(p: Piece, v: Coord)
    requires p.Valid() && Touches(p, v) && !p.Closed()
    ensures OpenOf(p) == multiset{v, Other(p, v)}
  {
  }

  lemma BothEnds(p: Piece, a: Coord, b: Coord)
    requires p.Valid() && Touches(p, a) && Touches(p, b) && a != b
    ensures Other(p, a) == b
  {
  }

  lemma ShownNew(p: Piece)
    requires p.Valid()
    ensures OpenOf(p) == if p.Closed() then multiset{} else multiset{p.First(), p.Last()}
  {
  }

  lemma AddKinds(list: seq<Piece>, s: Piece)
    requires s.Valid() && AllOf(list, s.kind)
    ensures AllOf(Add(list, s), s.kind)
    ensures forall i :: 0 < i < |Add(list, s)| ==> Add(list, s)[i] in list
  {
    hide Joined, LastMatch;
  }

  /** A closed piece stays by itself. */
  lemma ClosedAlone(list: seq<Piece>, used: multiset<Coord>, s: Piece)
    requires s.Valid() && TwoWay(s.kind) && Paired(list, used, s.kind) && AllValid(list)
    requires s.Closed() && used[s.First()] == 0
    ensures Add(list, s) == [s] + list
  {
    hide OpenEnds, LastMatch, Paired;
    MatchAt(list, used, s, true);
    MatchAt(list, used, s, false);
    assert [] + s.pts == s.pts;
  }

  /** One more piece keeps the open ends paired up. */
  lemma PairedStep(list: seq<Piece>, used: multiset<Coord>, s: Piece)
    requires s.Valid() && TwoWay(s.kind) && Paired(list, used, s.kind)
    requires forall v :: (used + PieceEnds(s))[v] <= 2
    ensures Paired(Add(list, s), used + PieceEnds(s), s.kind)
  {
    hide OpenEnds, Add, Chosen;
    AddKinds(list, s);
    var after := used + PieceEnds(s);
    var a, b := s.First(), s.Last();
    assert after[a] <= 2 && after[b] <= 2;
    if s.Closed() {
      ClosedAlone(list, used, s);
      OpenEndsCons(s, list);
    } else {
      OpenEndsAfter(list, used, s);
      ClosedFresh(list, used, s);
      forall v
        ensures OpenEnds(Add(list, s))[v] == if after[v] == 1 then 1 else 0
      {
        assert (OpenEnds(Add(list, s)) + Once(a, used) + Once(b, used))[v] ==
          (OpenEnds(list) + Never(a, used) + Never(b, used))[v];
        assert OpenEnds(list)[v] == if used[v] == 1 then 1 else 0;
      }
    }
    forall i | 0 <= i < |Add(list, s)| && Add(list, s)[i].Closed()
      ensures after[Add(list, s)[i].First()] >= 2
    {
      if i > 0 {
        var k :| 0 <= k < |list| && list[k] == Add(list, s)[i];
        assert used[list[k].First()] >= 2;
      }
    }
  }

  /** A ring that an open piece closes starts at a coordinate used twice by now. */
  lemma ClosedFresh(list: seq<Piece>, used: multiset<Coord>, s: Piece)
    requires s.Valid() && TwoWay(s.kind) && Paired(list, used, s.kind) && AllValid(list)
    requires used[s.First()] <= 1 && used[s.Last()] <= 1 && !s.Closed()
    ensures Add(list, s)[0].Closed() ==> used[s.Last()] == 1 && Add(list, s)[0].First() == s.Last()
  {
    NewPiece(list, used, s);
    NewPieceOpen(list, used, s);
    hide OpenEnds, Chosen, Add, WithoutTwo, Touches, LastMatch;
    if Add(list, s)[0].Closed() {
      var k := Chosen(list, s).0;
      Sides(list[k]);
      OpenPieceShows(list, k, s.Last());
    }
  }

  lemma {:induction false} PairedRun(input: seq<Piece>, kind: Kind)
    requires TwoWay(kind) && AllOf(input, kind)
    requires forall v :: AllEnds(input)[v] <= 2
    ensures Paired(Assembled(input), AllEnds(input), kind)
    decreases |input|
  {
    hide Add, OpenEnds;
    if input != [] {
      var n := |input| - 1;
      var used := AllEnds(input[..n]);
      assert forall v :: used[v] <= AllEnds(input)[v];
      PairedRun(input[..n], kind);
      PairedStep(Assembled(input[..n]), used, input[n]);
    } else {
      assert OpenEnds([]) == multiset{} by { EmptyOpen(); }
    }
  }

  lemma EmptyOpen()
    ensures OpenEnds([]) == multiset{}
  {
  }

  /**
   * Closure: when all pieces are of one two-way kind and every coordinate is a piece end
   * twice or not at all, only closed rings come out.
   */
  lemma RingsClose(input: seq<Piece>, kind: Kind)
    requires TwoWay(kind) && AllOf(input, kind)
    requires forall v :: AllEnds(input)[v] == 0 || AllEnds(input)[v] == 2
    ensures forall i :: 0 <= i < |Assembled(input)| ==> Assembled(input)[i].Closed()
  {
    hide Assembled, OpenEnds;
    PairedRun(input, kind);
    var rings := Assembled(input);
    forall i | 0 <= i < |rings|
      ensures rings[i].Closed()
    {
      if !rings[i].Closed() {
        OpenPieceShows(rings, i, rings[i].First());
        assert AllEnds(input)[rings[i].First()] != 1;
      }
    }
  }
}
