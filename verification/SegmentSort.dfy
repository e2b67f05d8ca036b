/**
 * Joining way pieces into rings (geom_poly_segments_sort in navit/geom.c), as a fold over
 * values.
 */
module SegmentSort {
  import opened Coords

  datatype Kind = NoKind | Inner | Outer | LeftSide | RightSide | UnknownKind

  /** A piece has at least one coordinate. */
  datatype Piece = Piece(kind: Kind, pts: seq<Coord>) {
    ghost predicate Valid() { pts != [] }
    function First(): Coord requires pts != [] { pts[0] }
    function Last(): Coord requires pts != [] { pts[|pts| - 1] }
    predicate Closed() requires pts != [] { First() == Last() }
  }

  /** Whether pieces of these kinds may be joined with both running the same way. */
  predicate SameWay(k: Kind, l: Kind) {
    k != NoKind && l != NoKind && (k == l || k == UnknownKind || l == UnknownKind)
  }

  /** Whether pieces of these kinds may be joined with one of them turned around. */
  predicate OppositeWay(k: Kind, l: Kind) {
    && k != NoKind && l != NoKind
    && (|| (k == l && (k == Inner || k == Outer))
        || (k == LeftSide && l == RightSide) || (k == RightSide && l == LeftSide)
        || k == UnknownKind || l == UnknownKind)
  }

  /** geom_poly_segment_compatible: can `c` go before (`atStart`) or after `s`? */
  predicate Compatible(s: Piece, c: Piece, atStart: bool)
    requires s.Valid() && c.Valid()
  {
    if atStart then
      (OppositeWay(s.kind, c.kind) && s.First() == c.First()) || (SameWay(s.kind, c.kind) && s.First() == c.Last())
    else
      (OppositeWay(s.kind, c.kind) && s.Last() == c.Last()) || (SameWay(s.kind, c.kind) && s.Last() == c.First())
  }

  ghost predicate AllValid(list: seq<Piece>) {
    forall i :: 0 <= i < |list| ==> list[i].Valid()
  }

  /** The last piece of the list that can be joined, or -1. */
  function LastMatch(list: seq<Piece>, s: Piece, atStart: bool): (k: int)
    requires AllValid(list) && s.Valid()
    ensures -1 <= k < |list|
    ensures k >= 0 ==> Compatible(s, list[k], atStart)
    ensures forall i :: k < i < |list| ==> !Compatible(s, list[i], atStart)
  {
    if list == [] then -1
    else if Compatible(s, list[|list| - 1], atStart) then |list| - 1
    else LastMatch(list[..|list| - 1], s, atStart)
  }

  function ButLast(s: seq<Coord>): seq<Coord>
    requires s != []
  {
    s[..|s| - 1]
  }

  /** The piece that goes before `s`, turned around when it starts where `s` starts. */
  function Before(f: seq<Coord>, s: seq<Coord>): (r: seq<Coord>)
    requires f != [] && s != []
    ensures |r| == |f|
  {
    if f[0] == s[0] then Reversed(f) else f
  }

  /** The piece that goes after `s`, turned around when it ends where `s` ends. */
  function After(s: seq<Coord>, t: seq<Coord>): (r: seq<Coord>)
    requires s != [] && t != []
    ensures |r| == |t|
  {
    if t[|t| - 1] == s[|s| - 1] then Reversed(t) else t
  }

  /** What geom_poly_segments_insert puts together; an empty f or t stands for none. */
  function Joined(f: seq<Coord>, s: seq<Coord>, t: seq<Coord>): (r: seq<Coord>)
    requires s != []
    ensures r != []
    ensures |r| == |s| + (if f == [] then 0 else |f| - 1) + (if t == [] then 0 else |t| - 1)
  {
    (if f == [] then [] else ButLast(Before(f, s))) + (if t == [] then s else ButLast(s) + After(s, t))
  }

  function Dropped<T>(list: seq<T>, k: int): seq<T>
    requires -1 <= k < |list|
  {
    if k < 0 then list else list[..k] + list[k + 1..]
  }

  /** The two pieces a new one is joined to: never the same piece twice. */
  function Chosen(list: seq<Piece>, s: Piece): (m: (int, int))
    requires AllValid(list) && s.Valid()
    ensures -1 <= m.0 < |list| && -1 <= m.1 < |list|
    ensures m.0 == m.1 ==> m.0 == -1
  {
    var f, t := LastMatch(list, s, true), LastMatch(list, s, false);
    (f, if f == t then -1 else t)
  }

  function Coordinates(list: seq<Piece>, k: int): seq<Coord>
    requires -1 <= k < |list|
  {
    if k < 0 then [] else list[k].pts
  }

  /** The list without the pieces at two different positions. */
  function WithoutTwo<T>(list: seq<T>, i: int, j: int): (r: seq<T>)
    requires -1 <= i < |list| && -1 <= j < |list|
    requires i == j ==> i == -1
    ensures forall k :: 0 <= k < |r| ==> r[k] in list
  {
    Dropped(Dropped(list, i), if 0 <= i < j then j - 1 else j)
  }

  /** One round of the sort: the joined piece in front, the pieces it used up gone. */
  function Add(list: seq<Piece>, s: Piece): (r: seq<Piece>)
    requires AllValid(list) && s.Valid()
    ensures AllValid(r)
  {
    var m := Chosen(list, s);
    [Piece(s.kind, Joined(Coordinates(list, m.0), s.pts, Coordinates(list, m.1)))] + WithoutTwo(list, m.0, m.1)
  }

  function Assembled(input: seq<Piece>): (r: seq<Piece>)
    requires AllValid(input)
    ensures AllValid(r)
  {
    if input == [] then [] else Add(Assembled(input[..|input| - 1]), input[|input| - 1])
  }

  // ------------------------------------------------------- edges are conserved

  /** An edge without its direction: the smaller end first. */
  function Undirected(a: Coord, b: Coord): (Coord, Coord) {
    if a.x < b.x || (a.x == b.x && a.y <= b.y) then (a, b) else (b, a)
  }

  /** How an edge is looked at: without its direction, along it, or against it */
  datatype Look = AsLine | Along | Against

  function Turned(look: Look): Look {
    match look
    case AsLine => AsLine
    case Along => Against
    case Against => Along
  }

  function TurnedIf(turn: bool, look: Look): Look { if turn then Turned(look) else look }

  function Edge(a: Coord, b: Coord, look: Look): (Coord, Coord) {
    match look
    case AsLine => Undirected(a, b)
    case Along => (a, b)
    case Against => (b, a)
  }

  /** The edges between consecutive coordinates. */
  ghost function Edges(pts: seq<Coord>, look: Look): multiset<(Coord, Coord)> {
    if |pts| < 2 then multiset{} else multiset{Edge(pts[0], pts[1], look)} + Edges(pts[1..], look)
  }

  /**
   * What is seen of the pieces: the edges of all, the edges of those of a kind, the edges of the one-sided ones
   * with their left side on the left, or the ends, each as an edge to itself.
   */
  datatype View = Every(look: Look) | OfKind(kind: Kind) | Sides | Ends

  ghost function Shown(p: Piece, view: View): multiset<(Coord, Coord)> {
    match view
    case Every(look) => Edges(p.pts, look)
    case OfKind(kind) => if p.kind == kind then Edges(p.pts, AsLine) else multiset{}
    case Sides =>
      if p.kind == LeftSide then Edges(p.pts, Along)
      else if p.kind == RightSide then Edges(p.pts, Against)
      else multiset{}
    case Ends => if p.pts == [] then multiset{} else multiset{(p.First(), p.First()), (p.Last(), p.Last())}
  }

  ghost function Seen(list: seq<Piece>, view: View): multiset<(Coord, Coord)> {
    if list == [] then multiset{} else Shown(list[0], view) + Seen(list[1..], view)
  }

  lemma EdgesCons(x: Coord, s: seq<Coord>, look: Look)
    requires s != []
    ensures Edges([x] + s, look) == multiset{Edge(x, s[0], look)} + Edges(s, look)
  {
    assert ([x] + s)[1..] == s;
  }

  lemma EdgesOne(x: Coord, look: Look)
    ensures Edges([x], look) == multiset{} == Edges([], look)
  {
  }

  lemma {:induction false} EdgesMeet(a: seq<Coord>, b: seq<Coord>, look: Look)
    requires a != [] && b != [] && a[|a| - 1] == b[0]
    ensures Edges(ButLast(a) + b, look) == Edges(a, look) + Edges(b, look)
    decreases |a|
  {
    hide Edges, Edge;
    if |a| == 1 {
      assert ButLast(a) + b == b && a == [a[0]];
      EdgesOne(a[0], look);
    } else {
      var rest := a[1..];
      EdgesMeet(rest, b, look);
      var joined := ButLast(rest) + b;
      assert joined[0] == a[1];
      assert ButLast(a) + b == [a[0]] + joined;
      assert a == [a[0]] + rest;
      EdgesCons(a[0], joined, look);
      EdgesCons(a[0], rest, look);
    }
  }

  /** A line turned around is seen as the line looked at the other way. */
  lemma {:induction false} EdgesTurned(a: seq<Coord>, look: Look)
    ensures Edges(Reversed(a), look) == Edges(a, Turned(look))
    decreases |a|
  {
    hide Edges;
    if |a| >= 2 {
      var rest := a[1..];
      EdgesTurned(rest, look);
      var r := Reversed(rest);
      ReversedAt(rest, |rest| - 1);
      EdgesMeet(r, [a[1], a[0]], look);
      assert ButLast(r) + [a[1], a[0]] == r + [a[0]];
      assert [a[1], a[0]] == [a[1]] + [a[0]];
      EdgesCons(a[1], [a[0]], look);
      EdgesOne(a[0], look);
      assert a == [a[0]] + rest;
      EdgesCons(a[0], rest, Turned(look));
    } else if |a| == 1 {
      assert Reversed(a) == a == [a[0]];
      EdgesOne(a[0], look);
      EdgesOne(a[0], Turned(look));
    } else {
      EdgesOne(Coord(0, 0), look);
      EdgesOne(Coord(0, 0), Turned(look));
    }
  }

  /** Whether f, s and t fit: the joints of `Joined` are at equal coordinates. */
  ghost predicate Fits(f: seq<Coord>, s: seq<Coord>, t: seq<Coord>) {
    && s != []
    && (f != [] ==> f[0] == s[0] || f[|f| - 1] == s[0])
    && (t != [] ==> t[0] == s[|s| - 1] || t[|t| - 1] == s[|s| - 1])
  }

  lemma JointsMeet(f: seq<Coord>, s: seq<Coord>, t: seq<Coord>)
    requires Fits(f, s, t)
    ensures f != [] ==> Before(f, s)[|f| - 1] == s[0]
    ensures t != [] ==> After(s, t)[0] == s[|s| - 1]
  {
    if f != [] {
      ReversedAt(f, |f| - 1);
    }
    if t != [] {
      ReversedAt(t, 0);
    }
  }

  lemma SameStart(s: seq<Coord>, t: seq<Coord>)
    requires s != [] && t != [] && t[0] == s[|s| - 1]
    ensures (ButLast(s) + t)[0] == s[0]
  {
  }

  /** What a join shows of each piece: those that are turned around, the other way. */
  lemma EdgesJoined(f: seq<Coord>, s: seq<Coord>, t: seq<Coord>, look: Look)
    requires Fits(f, s, t)
    ensures Edges(Joined(f, s, t), look) ==
      Edges(f, TurnedIf(f != [] && f[0] == s[0], look)) + Edges(s, look)
      + Edges(t, TurnedIf(t != [] && t[|t| - 1] == s[|s| - 1], look))
  {
    hide Edges, Reversed, ButLast, Turned;
    JointsMeet(f, s, t);
    EdgesOne(Coord(0, 0), look);
    EdgesTurned(f, look);
    EdgesTurned(t, look);
    EdgesOne(Coord(0, 0), TurnedIf(false, look));
    var tail := if t == [] then s else ButLast(s) + After(s, t);
    if t != [] {
      EdgesMeet(s, After(s, t), look);
      SameStart(s, After(s, t));
    }
    if f != [] {
      EdgesMeet(Before(f, s), tail, look);
    }
    assert [] + tail == tail;
  }

  /** What `Chosen` picks always fits. */
  lemma ChosenFits(list: seq<Piece>, s: Piece)
    requires AllValid(list) && s.Valid()
    ensures var m := Chosen(list, s); Fits(Coordinates(list, m.0), s.pts, Coordinates(list, m.1))
  {
  }

  /** Where position j moves when position i is dropped. */
  lemma Shift(list: seq<Piece>, i: int, j: int)
    requires -1 <= i < |list| && -1 <= j < |list|
    requires i == j ==> i == -1
    ensures i < 0 ==> Dropped(list, i) == list
    ensures forall l: seq<Piece> :: Dropped(l, -1) == l
    ensures j >= 0 ==>
      var k := if 0 <= i < j then j - 1 else j; k < |Dropped(list, i)| && Dropped(list, i)[k] == list[j]
  {
  }

  lemma SeenCons(p: Piece, list: seq<Piece>, view: View)
    ensures Seen([p] + list, view) == Shown(p, view) + Seen(list, view)
  {
    assert ([p] + list)[1..] == list;
  }

  lemma {:induction false} SeenDropped(list: seq<Piece>, k: int, view: View)
    requires 0 <= k < |list|
    ensures Seen(list, view) == Seen(Dropped(list, k), view) + Shown(list[k], view)
    decreases |list|
  {
    hide Seen, Shown;
    var rest := list[1..];
    assert list == [list[0]] + rest;
    SeenCons(list[0], rest, view);
    if k == 0 {
      assert Dropped(list, 0) == rest;
    } else {
      SeenDropped(rest, k - 1, view);
      assert Dropped(list, k) == [list[0]] + Dropped(rest, k - 1);
      SeenCons(list[0], Dropped(rest, k - 1), view);
    }
  }

  ghost function SeenAt(list: seq<Piece>, k: int, view: View): multiset<(Coord, Coord)>
    requires -1 <= k < |list|
  {
    if k < 0 then multiset{} else Shown(list[k], view)
  }

  lemma SeenWithoutTwo(list: seq<Piece>, i: int, j: int, view: View)
    requires -1 <= i < |list| && -1 <= j < |list|
    requires i == j ==> i == -1
    ensures Seen(list, view) == Seen(WithoutTwo(list, i, j), view) + SeenAt(list, i, view) + SeenAt(list, j, view)
  {
    hide Seen, Shown, Dropped;
    Shift(list, i, j);
    if i >= 0 {
      SeenDropped(list, i, view);
    }
    if j >= 0 {
      SeenDropped(Dropped(list, i), if 0 <= i < j then j - 1 else j, view);
    }
  }

  lemma AddSeen(list: seq<Piece>, s: Piece, view: View)
    requires AllValid(list) && s.Valid()
    requires var m := Chosen(list, s);
      Shown(Piece(s.kind, Joined(Coordinates(list, m.0), s.pts, Coordinates(list, m.1))), view) ==
        SeenAt(list, m.0, view) + Shown(s, view) + SeenAt(list, m.1, view)
    ensures Seen(Add(list, s), view) == Seen(list, view) + Shown(s, view)
  {
    hide Seen, Shown, Joined, Chosen, WithoutTwo, Coordinates, SeenAt;
    var m := Chosen(list, s);
    SeenWithoutTwo(list, m.0, m.1, view);
    SeenCons(Piece(s.kind, Joined(Coordinates(list, m.0), s.pts, Coordinates(list, m.1))),
             WithoutTwo(list, m.0, m.1), view);
  }

  lemma SeenLast(input: seq<Piece>, view: View)
    requires input != []
    ensures Seen(input, view) == Seen(input[..|input| - 1], view) + Shown(input[|input| - 1], view)
  {
    hide Seen, Shown;
    SeenDropped(input, |input| - 1, view);
    assert Dropped(input, |input| - 1) == input[..|input| - 1];
  }

  /** Looked at as lines, a join keeps every edge. */
  lemma JoinKeepsEdges(list: seq<Piece>, s: Piece)
    requires AllValid(list) && s.Valid()
    ensures var m, view := Chosen(list, s), Every(AsLine);
      Shown(Piece(s.kind, Joined(Coordinates(list, m.0), s.pts, Coordinates(list, m.1))), view) ==
        SeenAt(list, m.0, view) + Shown(s, view) + SeenAt(list, m.1, view)
  {
    hide Edges, Joined, Chosen;
    var m := Chosen(list, s);
    ChosenFits(list, s);
    EdgesJoined(Coordinates(list, m.0), s.pts, Coordinates(list, m.1), AsLine);
    EdgesOne(Coord(0, 0), AsLine);
  }

  /**
   * Conservation, for any pieces of any kinds: the rings and lines that come out have
   * exactly the edges that went in, each as often as before.
   */
  lemma {:induction false} EdgesConserved(input: seq<Piece>)
    requires AllValid(input)
    ensures Seen(Assembled(input), Every(AsLine)) == Seen(input, Every(AsLine))
    decreases |input|
  {
    hide Add, Seen, Shown;
    if input == [] {
      assert Assembled(input) == input;
    } else {
      var n := |input| - 1;
      EdgesConserved(input[..n]);
      JoinKeepsEdges(Assembled(input[..n]), input[n]);
      AddSeen(Assembled(input[..n]), input[n], Every(AsLine));
      SeenLast(input, Every(AsLine));
    }
  }
}
