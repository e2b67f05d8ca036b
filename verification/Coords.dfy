/** Coordinates, and sequences of them read both ways (navit/geom.c). */
module Coords {
  datatype Coord = Coord(x: int, y: int)

  function Reversed<T>(s: seq<T>): (r: seq<T>)
    ensures |r| == |s|
  {
    if s == [] then [] else Reversed(s[1..]) + [s[0]]
  }

  lemma {:induction false} ReversedAt<T>(s: seq<T>, k: nat)
    requires k < |s|
    ensures Reversed(s)[k] == s[|s| - 1 - k]
  {
    if k < |s| - 1 {
      ReversedAt(s[1..], k);
    }
  }

  lemma ReversedAppend<T>(s: seq<T>, x: T)
    ensures Reversed(s + [x]) == [x] + Reversed(s)
  {
    var a, b := Reversed(s + [x]), [x] + Reversed(s);
    forall k | 0 <= k < |a|
      ensures a[k] == b[k]
    {
      ReversedAt(s + [x], k);
      if k > 0 {
        ReversedAt(s, k - 1);
      }
    }
  }

  lemma ReversedTwice<T>(s: seq<T>)
    ensures Reversed(Reversed(s)) == s
  {
    forall k | 0 <= k < |s|
      ensures Reversed(Reversed(s))[k] == s[k]
    {
      ReversedAt(Reversed(s), k);
      ReversedAt(s, |s| - 1 - k);
    }
  }

  /** geom_coord_copy, from the start of one array to a position in another */
  method CopyCoords(from: array<Coord>, to: array<Coord>, pos: nat, count: nat, reverse: bool)
    requires from != to && count <= from.Length && pos + count <= to.Length
    modifies to
    ensures to[..pos] == old(to[..pos]) && to[pos + count..] == old(to[pos + count..])
    ensures to[pos..pos + count] == if reverse then Reversed(from[..count]) else from[..count]
  {
    if !reverse {
      forall i | 0 <= i < count {
        to[pos + i] := from[i];
      }
      return;
    }
    var source := count;
    for i := 0 to count
      invariant source == count - i
      invariant to[..pos] == old(to[..pos]) && to[pos + count..] == old(to[pos + count..])
      invariant forall k :: pos <= k < pos + i ==> to[k] == from[count - 1 - (k - pos)]
    {
      source := source - 1;
      to[pos + i] := from[source];
    }
    forall k | 0 <= k < count
      ensures to[pos..pos + count][k] == Reversed(from[..count])[k]
    {
      ReversedAt(from[..count], k);
    }
  }

  /** geom_coord_revert: in place */
  method RevertCoords(c: array<Coord>, count: nat)
    requires count <= c.Length
    modifies c
    ensures c[..count] == Reversed(old(c[..count])) && c[count..] == old(c[count..])
  {
    for i := 0 to count / 2
      invariant forall k :: 0 <= k < i ==> c[k] == old(c[count - 1 - k]) && c[count - 1 - k] == old(c[k])
      invariant forall k :: i <= k < count - i ==> c[k] == old(c[k])
      invariant forall k :: count <= k < c.Length ==> c[k] == old(c[k])
    {
      c[i], c[count - 1 - i] := c[count - 1 - i], c[i];
    }
    ghost var was := old(c[..count]);
    forall k | 0 <= k < count
      ensures c[..count][k] == Reversed(was)[k]
    {
      ReversedAt(was, k);
    }
  }
}
