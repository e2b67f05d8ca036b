/**
 * The same clipping where maps are made (navit/maptool/itembin.c): items that grow by their coordinates, and
 * the crossing of navit/geom.c.
 */
module ItemClip {
  import opened Coords
  import opened Clip
  import opened ClipBuffers

  /** struct item_bin, as far as its coordinates */
  class Item {
    var coords: seq<Coord>

    constructor ()
      ensures coords == []
    {
      coords := [];
    }

    /** item_bin_init */
    method Init()
      modifies this
      ensures coords == []
    {
      coords := [];
    }

    /** item_bin_add_coord, for one coordinate */
    method AddCoord(c: Coord)
      modifies this
      ensures coords == old(coords) + [c]
    {
      coords := coords + [c];
    }
  }

  /** What one vertex adds */
  method AddVertex(out: Item, s: Coord, p: Coord, r: Rect, edge: nat)
    requires edge < 4
    modifies out
    ensures out.coords == old(out.coords) + Emit(OfOffset, s, p, r, edge)
  {
    hide Crossing, Inside;
    if Inside(p, r, edge) {
      if !Inside(s, r, edge) {
        out.AddCoord(Crossing(OfOffset, s, p, r, edge));
      }
      out.AddCoord(p);
    } else if Inside(s, r, edge) {
      out.AddCoord(Crossing(OfOffset, p, s, r, edge));
    }
  }

  /** The pass at one edge */
  method ClipAt(input: Item, out: Item, r: Rect, edge: nat)
    requires edge < 4 && input != out
    modifies out
    ensures out.coords == Pass(OfOffset, input.coords, r, edge)
  {
    hide Emit, PassFrom, Pass;
    var pin := input.coords;
    PassBounds(OfOffset, pin, r, edge);
    out.Init();
    if pin == [] {
      return;
    }
    var s := pin[|pin| - 1];
    ghost var before := s;
    for i := 0 to |pin|
      invariant out.coords == PassFrom(OfOffset, before, pin[..i], r, edge)
      invariant s == if i == 0 then before else pin[i - 1]
    {
      PassStep(OfOffset, before, pin, i, r, edge);
      AddVertex(out, s, pin[i], r, edge);
      s := pin[i];
    }
  }

  /** clip_polygon: four passes that flip between two items; the item itself stays as it is. */
  method ClipPolygonItem(ib: Item, r: Rect) returns (clipped: Item)
    ensures fresh(clipped) && clipped.coords == Clipped(OfOffset, ib.coords, r, 4)
  {
    hide Pass;
    var ib1 := new Item();
    var ib2 := new Item();
    var input, out := ib, ib1;
    for edge := 0 to 4
      invariant input == if edge == 0 then ib else if edge % 2 == 1 then ib1 else ib2
      invariant out == if edge % 2 == 1 then ib2 else ib1
      invariant input.coords == Clipped(OfOffset, ib.coords, r, edge)
    {
      ClipAt(input, out, r, edge);
      if input == ib1 {
        input, out := ib2, ib1;
      } else {
        input, out := ib1, ib2;
      }
    }
    clipped := input;
  }
}
