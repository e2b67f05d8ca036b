/**
 * The item types that a display list draws, as an open-addressing table with a bounded probe
 * distance (navit/graphics.c).
 */
module TypeIndex {
  import opened Wrappers

  const HASH_SIZE := 1024
  const NO_TYPE := 0

  /** What is made of a type before it is cut down to a slot; nothing depends on it. */
  datatype Hash = Hash(of: nat -> nat)

  /** The hash of the source, which multiplies */
  const MULTIPLY := Hash(t => t * 2654435761)

  function Home(h: Hash, t: nat): (i: nat)
    ensures i < HASH_SIZE
  {
    h.of(t) % HASH_SIZE
  }

  /** The slot of the d-th probe */
  function Slot(h: Hash, t: nat, d: nat): (i: nat)
    ensures i < HASH_SIZE
  {
    (Home(h, t) + d) % HASH_SIZE
  }

  function Types(entries: seq<nat>): (types: set<nat>) {
    set i | 0 <= i < |entries| && entries[i] != NO_TYPE :: entries[i]
  }

  /** The slot is neither free nor taken by the type: a probe goes on. */
  predicate Passed(h: Hash, entries: seq<nat>, t: nat, d: nat)
    requires |entries| == HASH_SIZE
  {
    entries[Slot(h, t, d)] != NO_TYPE && entries[Slot(h, t, d)] != t
  }

  predicate Reachable(h: Hash, entries: seq<nat>, t: nat, d: nat)
    requires |entries| == HASH_SIZE
  {
    entries[Slot(h, t, d)] == t && forall k :: 0 <= k < d ==> Passed(h, entries, t, k)
  }

  /** Every type in the table is reached by probing no further than the bound. */
  ghost predicate Probed(h: Hash, entries: seq<nat>, maxOffset: nat) {
    && |entries| == HASH_SIZE && maxOffset < HASH_SIZE
    && forall i :: 0 <= i < HASH_SIZE && entries[i] != NO_TYPE ==>
      exists d :: 0 <= d <= maxOffset && i == Slot(h, entries[i], d) && Reachable(h, entries, entries[i], d)
  }

  // ---------------------------------------------------------------- lemmas

  /** Probing visits every slot. */
  lemma SlotsAreAll(h: Hash, t: nat, i: nat) returns (d: nat)
    requires i < HASH_SIZE
    ensures d < HASH_SIZE && Slot(h, t, d) == i
  {
    d := if i >= Home(h, t) then i - Home(h, t) else i + HASH_SIZE - Home(h, t);
  }

  lemma SlotsRepeat(h: Hash, t: nat, d: nat) returns (k: nat)
    ensures k < HASH_SIZE && Slot(h, t, k) == Slot(h, t, d)
  {
    k := SlotsAreAll(h, t, Slot(h, t, d));
  }

  lemma OneSlotEach(h: Hash, entries: seq<nat>, maxOffset: nat, i: nat, j: nat)
    requires Probed(h, entries, maxOffset) && i < HASH_SIZE && j < HASH_SIZE
    requires entries[i] == entries[j] != NO_TYPE
    ensures i == j
  {
    var d :| 0 <= d <= maxOffset && i == Slot(h, entries[i], d) && Reachable(h, entries, entries[i], d);
    var e :| 0 <= e <= maxOffset && j == Slot(h, entries[j], e) && Reachable(h, entries, entries[j], e);
    assert d < e ==> Passed(h, entries, entries[i], d);
    assert e < d ==> Passed(h, entries, entries[i], e);
  }

  lemma {:induction false} CountTypes(entries: seq<nat>)
    requires forall i, j :: 0 <= i < j < |entries| && entries[i] != NO_TYPE ==> entries[i] != entries[j]
    ensures |Types(entries)| <= |entries|
    ensures |Types(entries)| == |entries| <==> forall i :: 0 <= i < |entries| ==> entries[i] != NO_TYPE
  {
    if entries != [] {
      var n := |entries| - 1;
      var init, t := entries[..n], entries[n];
      CountTypes(init);
      if t == NO_TYPE {
        assert Types(entries) == Types(init);
      } else {
        assert t !in Types(init);
        TypesAppend(init, t);
        assert entries == init + [t];
      }
    }
  }

  lemma TypesAppend(entries: seq<nat>, t: nat)
    requires t != NO_TYPE
    ensures Types(entries + [t]) == Types(entries) + {t}
  {
    var more := entries + [t];
    assert more[|entries|] == t;
    forall x | x in Types(entries)
      ensures x in Types(more)
    {
      var i :| 0 <= i < |entries| && entries[i] != NO_TYPE && entries[i] == x;
      assert more[i] == x;
    }
  }

  /** A probe for a type stops at a free slot or at the type exactly if the type is there or the table is not full. */
  lemma StopsExactly(h: Hash, entries: seq<nat>, maxOffset: nat, t: nat)
    requires Probed(h, entries, maxOffset)
    ensures (exists d: nat :: !Passed(h, entries, t, d)) <==> (t in Types(entries) || |Types(entries)| < HASH_SIZE)
  {
    forall i, j | 0 <= i < j < HASH_SIZE && entries[i] != NO_TYPE
      ensures entries[i] != entries[j]
    {
      if entries[i] == entries[j] {
        OneSlotEach(h, entries, maxOffset, i, j);
      }
    }
    CountTypes(entries);
    if d: nat :| !Passed(h, entries, t, d) {
      assert entries[Slot(h, t, d)] == t != NO_TYPE ==> t in Types(entries);
    }
    if t in Types(entries) {
      var i :| 0 <= i < HASH_SIZE && entries[i] == t;
      var d := SlotsAreAll(h, t, i);
      assert !Passed(h, entries, t, d);
    } else if |Types(entries)| < HASH_SIZE {
      var i :| 0 <= i < HASH_SIZE && entries[i] == NO_TYPE;
      var d := SlotsAreAll(h, t, i);
      assert !Passed(h, entries, t, d);
    }
  }

  /** Filling a free slot leaves the way to a type alone. */
  lemma WayKept(h: Hash, entries: seq<nat>, at: nat, t: nat, x: nat, d: nat)
    requires |entries| == HASH_SIZE && at < HASH_SIZE && entries[at] == NO_TYPE != t && x != NO_TYPE && x != t
    requires Reachable(h, entries, x, d)
    ensures Reachable(h, entries[at := t], x, d)
  {
    hide Slot;
    var now := entries[at := t];
    forall k | 0 <= k < d
      ensures Passed(h, now, x, k)
    {
      assert Passed(h, entries, x, k);
    }
  }

  lemma WayToNew(h: Hash, entries: seq<nat>, t: nat, d: nat)
    requires |entries| == HASH_SIZE && entries[Slot(h, t, d)] == NO_TYPE != t
    requires forall k :: 0 <= k < d ==> Passed(h, entries, t, k)
    ensures Reachable(h, entries[Slot(h, t, d) := t], t, d)
  {
    hide Slot;
    var now := entries[Slot(h, t, d) := t];
    forall k | 0 <= k < d
      ensures Passed(h, now, t, k)
    {
      assert Passed(h, entries, t, k);
    }
  }

  /** Filling the free slot where a probe for a type stops keeps the others within reach. */
  lemma FillKeepsProbed(h: Hash, entries: seq<nat>, maxOffset: nat, t: nat, d: nat)
    requires Probed(h, entries, maxOffset) && d < HASH_SIZE && t != NO_TYPE
    requires entries[Slot(h, t, d)] == NO_TYPE && forall k :: 0 <= k < d ==> Passed(h, entries, t, k)
    ensures Probed(h, entries[Slot(h, t, d) := t], if maxOffset < d then d else maxOffset)
    ensures Types(entries[Slot(h, t, d) := t]) == Types(entries) + {t}
  {
    hide Slot, Passed, Reachable;
    var at := Slot(h, t, d);
    var now, bound := entries[at := t], if maxOffset < d then d else maxOffset;
    TypeIsNew(h, entries, maxOffset, t, d);
    WayToNew(h, entries, t, d);
    forall i | 0 <= i < HASH_SIZE && now[i] != NO_TYPE
      ensures exists e :: 0 <= e <= bound && i == Slot(h, now[i], e) && Reachable(h, now, now[i], e)
    {
      if i == at {
        assert i == Slot(h, now[i], d) && Reachable(h, now, now[i], d);
      } else {
        var e :| 0 <= e <= maxOffset && i == Slot(h, entries[i], e) && Reachable(h, entries, entries[i], e);
        InTable(entries, i);
        WayKept(h, entries, at, t, entries[i], e);
        assert i == Slot(h, now[i], e) && Reachable(h, now, now[i], e);
      }
    }
    TypesFilled(entries, at, t);
  }

  lemma TypesFilled(entries: seq<nat>, at: nat, t: nat)
    requires at < |entries| && entries[at] == NO_TYPE != t
    ensures Types(entries[at := t]) == Types(entries) + {t}
  {
    var now := entries[at := t];
    assert now[at] == t;
    forall x | x in Types(entries)
      ensures x in Types(now)
    {
      var i :| 0 <= i < |entries| && entries[i] != NO_TYPE && entries[i] == x;
      assert now[i] == x;
    }
  }

  lemma TypeIsNew(h: Hash, entries: seq<nat>, maxOffset: nat, t: nat, d: nat)
    requires Probed(h, entries, maxOffset) && forall k :: 0 <= k < d ==> Passed(h, entries, t, k)
    requires entries[Slot(h, t, d)] == NO_TYPE
    ensures t !in Types(entries)
  {
    NotInTable(h, entries, maxOffset, t, d);
  }

  /** A larger bound, and putting nothing into a free slot, change nothing. */
  lemma FillWithNothing(h: Hash, entries: seq<nat>, maxOffset: nat, at: nat, d: nat)
    requires Probed(h, entries, maxOffset) && d < HASH_SIZE && at < HASH_SIZE && entries[at] == NO_TYPE
    ensures entries[at := NO_TYPE] == entries && Probed(h, entries, if maxOffset < d then d else maxOffset)
  {
    hide Reachable, Slot;
    var bound := if maxOffset < d then d else maxOffset;
    forall i | 0 <= i < HASH_SIZE && entries[i] != NO_TYPE
      ensures exists e :: 0 <= e <= bound && i == Slot(h, entries[i], e) && Reachable(h, entries, entries[i], e)
    {
      var e :| 0 <= e <= maxOffset && i == Slot(h, entries[i], e) && Reachable(h, entries, entries[i], e);
      assert i == Slot(h, entries[i], e) && Reachable(h, entries, entries[i], e);
    }
  }

  lemma KeepsStopping(h: Hash, entries: seq<nat>, maxOffset: nat, t: nat, d: nat)
    requires Probed(h, entries, maxOffset) && (t in Types(entries) || |Types(entries)| < HASH_SIZE)
    requires forall k :: 0 <= k < d ==> Passed(h, entries, t, k)
    ensures d < HASH_SIZE
  {
    StopsExactly(h, entries, maxOffset, t);
    var e: nat :| !Passed(h, entries, t, e);
    var k := SlotsRepeat(h, t, e);
    assert d > k ==> Passed(h, entries, t, k);
  }

  /** A type that is not met up to a free slot or to the bound is not in the table. */
  lemma NotInTable(h: Hash, entries: seq<nat>, maxOffset: nat, t: nat, d: nat)
    requires Probed(h, entries, maxOffset) && forall k :: 0 <= k < d ==> Passed(h, entries, t, k)
    requires d > maxOffset || entries[Slot(h, t, d)] == NO_TYPE
    ensures t !in Types(entries)
  {
    hide Slot;
    forall i | 0 <= i < HASH_SIZE && entries[i] != NO_TYPE
      ensures entries[i] != t
    {
      var e :| 0 <= e <= maxOffset && i == Slot(h, entries[i], e) && Reachable(h, entries, entries[i], e);
      assert e < d ==> Passed(h, entries, t, e);
      assert d < e && entries[i] == t ==> Passed(h, entries, t, d);
    }
  }

  lemma ProbedSize(h: Hash, entries: seq<nat>, maxOffset: nat)
    requires Probed(h, entries, maxOffset)
    ensures |entries| == HASH_SIZE
  {
  }

  lemma PassedIs(h: Hash, entries: seq<nat>, t: nat, d: nat)
    requires |entries| == HASH_SIZE
    ensures Passed(h, entries, t, d) <==> entries[Slot(h, t, d)] != NO_TYPE && entries[Slot(h, t, d)] != t
  {
  }

  lemma InTable(entries: seq<nat>, i: nat)
    requires i < |entries|
    ensures entries[i] != NO_TYPE ==> entries[i] in Types(entries)
  {
  }

  // ---------------------------------------------------------------- layers

  /** An item graphics: the orders that it is drawn at, and the types that it draws */
  datatype ItemGra = ItemGra(min: int, max: int, types: seq<nat>)

  /** A layer; `ref` is the layer that it stands for, if any. */
  datatype Layer = Layer(itemgras: seq<ItemGra>, ref: Option<seq<ItemGra>>)

  function Gras(layer: Layer): seq<ItemGra> {
    if layer.ref.Some? then layer.ref.value else layer.itemgras
  }

  predicate Covers(gra: ItemGra, order: int) { gra.min <= order <= gra.max }

  /** Some item graphics of a layer, or of the layer it refers to, draws the type at that order. */
  ghost predicate Draws(layers: seq<Layer>, order: int, t: nat) {
    exists l :: 0 <= l < |layers| && GrasDraw(Gras(layers[l]), order, t)
  }

  ghost predicate GrasDraw(gras: seq<ItemGra>, order: int, t: nat) {
    exists g :: 0 <= g < |gras| && Covers(gras[g], order) && t in gras[g].types
  }

  /** The orders of an item graphics are those from its first to its last, both included. */
  lemma OrderRange(gra: ItemGra, order: int)
    ensures gra.min <= gra.max ==> Covers(gra, gra.min) && Covers(gra, gra.max)
    ensures !Covers(gra, gra.min - 1) && !Covers(gra, gra.max + 1)
    ensures Covers(gra, order) && order < gra.max ==> Covers(gra, order + 1)
    ensures Covers(gra, order) && order > gra.min ==> Covers(gra, order - 1)
  {
  }

  /** A layer that refers to another draws what that one draws, and nothing of its own. */
  lemma ReferringLayer(own: seq<ItemGra>, other: seq<ItemGra>, order: int, t: nat)
    ensures Draws([Layer(own, Some(other))], order, t) <==> Draws([Layer(other, None)], order, t)
    ensures Draws([Layer(own, None)], order, t) <==>
      exists g :: 0 <= g < |own| && own[g].min <= order <= own[g].max && t in own[g].types
  {
    hide GrasDraw;
    var refers, alone, mine := [Layer(own, Some(other))], [Layer(other, None)], [Layer(own, None)];
    assert Gras(refers[0]) == other == Gras(alone[0]) && Gras(mine[0]) == own;
    DrawsOne(refers[0], order, t);
    DrawsOne(alone[0], order, t);
    DrawsOne(mine[0], order, t);
    DrawsWhat(own, order, t);
  }

  lemma DrawsOne(layer: Layer, order: int, t: nat)
    ensures Draws([layer], order, t) <==> GrasDraw(Gras(layer), order, t)
  {
    assert [layer][0] == layer;
  }

  lemma DrawsWhat(gras: seq<ItemGra>, order: int, t: nat)
    ensures GrasDraw(gras, order, t) <==>
      exists g :: 0 <= g < |gras| && gras[g].min <= order <= gras[g].max && t in gras[g].types
  {
    if GrasDraw(gras, order, t) {
      var g :| 0 <= g < |gras| && Covers(gras[g], order) && t in gras[g].types;
    }
    if g :| 0 <= g < |gras| && gras[g].min <= order <= gras[g].max && t in gras[g].types {
      assert Covers(gras[g], order);
    }
  }

  function Listed(gra: ItemGra, order: int): seq<nat> {
    if Covers(gra, order) then gra.types else []
  }

  function GrasListed(gras: seq<ItemGra>, order: int): seq<nat> {
    if gras == [] then [] else GrasListed(gras[..|gras| - 1], order) + Listed(gras[|gras| - 1], order)
  }

  /** All types that are drawn at an order, as they are listed */
  function LayersListed(layers: seq<Layer>, order: int): seq<nat> {
    if layers == [] then []
    else LayersListed(layers[..|layers| - 1], order) + GrasListed(Gras(layers[|layers| - 1]), order)
  }

  lemma {:induction false} GrasListedIs(gras: seq<ItemGra>, order: int, t: nat)
    ensures t in GrasListed(gras, order) <==> GrasDraw(gras, order, t)
  {
    if gras != [] {
      GrasListedIs(gras[..|gras| - 1], order, t);
      assert gras[..|gras| - 1] + [gras[|gras| - 1]] == gras;
    }
  }

  lemma {:induction false} LayersListedIs(layers: seq<Layer>, order: int, t: nat)
    ensures t in LayersListed(layers, order) <==> Draws(layers, order, t)
  {
    hide Covers, Gras, GrasDraw, GrasListed;
    if layers == [] {
      assert !Draws(layers, order, t);
    } else {
      var n := |layers| - 1;
      LayersListedIs(layers[..n], order, t);
      GrasListedIs(Gras(layers[n]), order, t);
      assert forall l :: 0 <= l < n ==> layers[..n][l] == layers[l];
      assert Draws(layers, order, t) <==> Draws(layers[..n], order, t) || GrasDraw(Gras(layers[n]), order, t);
    }
  }

  lemma GrasWithin(gras: seq<ItemGra>, g: nat, order: int)
    requires g < |gras|
    ensures GrasListed(gras[..g + 1], order) == GrasListed(gras[..g], order) + Listed(gras[g], order)
    ensures gras[..|gras|] == gras
  {
    assert gras[..g + 1][..g] == gras[..g];
  }

  lemma LayersWithin(layers: seq<Layer>, l: nat, order: int)
    requires l < |layers|
    ensures LayersListed(layers[..l + 1], order) ==
      LayersListed(layers[..l], order) + GrasListed(Gras(layers[l]), order)
    ensures layers[..|layers|] == layers
  {
    assert layers[..l + 1][..l] == layers[..l];
  }

  lemma {:induction false} GrasFewer(gras: seq<ItemGra>, g: nat, order: int)
    requires g <= |gras|
    ensures GrasListed(gras[..g], order) <= GrasListed(gras, order)
    decreases |gras| - g
  {
    if g < |gras| {
      GrasWithin(gras, g, order);
      GrasFewer(gras, g + 1, order);
    } else {
      assert gras[..g] == gras;
    }
  }

  lemma {:induction false} LayersFewer(layers: seq<Layer>, l: nat, order: int)
    requires l <= |layers|
    ensures LayersListed(layers[..l], order) <= LayersListed(layers, order)
    decreases |layers| - l
  {
    if l < |layers| {
      LayersWithin(layers, l, order);
      LayersFewer(layers, l + 1, order);
    } else {
      assert layers[..l] == layers;
    }
  }

  // ------------------------------------------- which lists a table can take

  /** Filling in a list ends: no more types than slots, and none listed as no type once all are taken */
  predicate Fits(listed: seq<nat>) {
    && |Types(listed)| <= HASH_SIZE
    && forall k :: 0 <= k < |listed| && listed[k] == NO_TYPE ==> |Types(listed[..k])| < HASH_SIZE
  }

  /** Wherever the filling in has got to, the next probe stops. */
  predicate EachStops(listed: seq<nat>) {
    forall k :: 0 <= k < |listed| ==> listed[k] in Types(listed[..k]) || |Types(listed[..k])| < HASH_SIZE
  }

  lemma TypesNext(listed: seq<nat>, k: nat)
    requires k < |listed|
    ensures Types(listed[..k + 1]) == Types(listed[..k]) + ({listed[k]} - {NO_TYPE})
    ensures Types(listed[..k + 1]) <= Types(listed)
  {
    hide Types;
    assert listed[..k + 1] == listed[..k] + [listed[k]];
    if listed[k] == NO_TYPE {
      NothingAdded(listed[..k]);
    } else {
      TypesAppend(listed[..k], listed[k]);
    }
    TypesWithin(listed, k + 1);
  }

  lemma NothingAdded(listed: seq<nat>)
    ensures Types(listed + [NO_TYPE]) == Types(listed)
  {
    var more := listed + [NO_TYPE];
    forall x | x in Types(listed)
      ensures x in Types(more)
    {
      var i :| 0 <= i < |listed| && listed[i] != NO_TYPE && listed[i] == x;
      assert more[i] == x;
    }
  }

  lemma TypesWithin(listed: seq<nat>, k: nat)
    requires k <= |listed|
    ensures Types(listed[..k]) <= Types(listed)
  {
  }

  /** Every probe of a list stops just if the list fits. */
  lemma FitsExactly(listed: seq<nat>)
    ensures Fits(listed) <==> EachStops(listed)
  {
    hide Types;
    if Fits(listed) {
      forall k | 0 <= k < |listed|
        ensures listed[k] in Types(listed[..k]) || |Types(listed[..k])| < HASH_SIZE
      {
        FitsAt(listed, k);
      }
    }
    if EachStops(listed) {
      NoMoreThanSlots(listed, |listed|);
      assert listed[..|listed|] == listed;
      forall k | 0 <= k < |listed| && listed[k] == NO_TYPE
        ensures |Types(listed[..k])| < HASH_SIZE
      {
        NoneIsNoType(listed[..k]);
      }
    }
  }

  lemma NoneIsNoType(listed: seq<nat>)
    ensures NO_TYPE !in Types(listed)
  {
  }

  lemma FitsAt(listed: seq<nat>, k: nat)
    requires Fits(listed) && k < |listed|
    ensures listed[k] in Types(listed[..k]) || |Types(listed[..k])| < HASH_SIZE
  {
    hide Types;
    TypesNext(listed, k);
    Smaller(Types(listed[..k + 1]), Types(listed));
  }

  lemma NoTypes(listed: seq<nat>)
    ensures Types(listed[..0]) == {}
  {
  }

  lemma OneMore(was: set<nat>, t: nat)
    ensures |was + ({t} - {NO_TYPE})| <= |was| + 1
    ensures t == NO_TYPE || t in was ==> was + ({t} - {NO_TYPE}) == was
  {
    assert was + ({t} - {NO_TYPE}) == if t == NO_TYPE || t in was then was else was + {t};
  }

  lemma {:induction false} NoMoreThanSlots(listed: seq<nat>, k: nat)
    requires EachStops(listed) && k <= |listed|
    ensures |Types(listed[..k])| <= HASH_SIZE
  {
    hide Types;
    if k == 0 {
      NoTypes(listed);
    } else {
      NoMoreThanSlots(listed, k - 1);
      TypesNext(listed, k - 1);
      OneMore(Types(listed[..k - 1]), listed[k - 1]);
    }
  }

  lemma Smaller(a: set<nat>, b: set<nat>)
    requires a <= b
    ensures |a| <= |b|
  {
    assert b == a + (b - a);
  }

  // ------------------------------------------------------------- the table

  /** The hash part of struct displaylist */
  class Table {
    const hash: Hash
    const entries: array<nat>
    var maxOffset: nat

    constructor (hash: Hash)
      ensures this.hash == hash && Valid() && fresh(entries) && Types(entries[..]) == {}
    {
      this.hash := hash;
      entries := new nat[HASH_SIZE](i => NO_TYPE);
      maxOffset := 0;
    }

    ghost predicate Valid()
      reads this, entries
    {
      entries.Length == HASH_SIZE && Probed(hash, entries[..], maxOffset)
    }

    /** clear_hash */
    method Clear()
      requires entries.Length == HASH_SIZE
      modifies entries
      ensures forall i :: 0 <= i < HASH_SIZE ==> entries[i] == NO_TYPE
    {
      for i := 0 to HASH_SIZE
        invariant forall k :: 0 <= k < i ==> entries[k] == NO_TYPE
      {
        entries[i] := NO_TYPE;
      }
    }

    /** get_hash_entry: the bound on the probe distance hides no type of the table. */
    method Get(t: nat) returns (r: Option<nat>)
      requires Valid()
      ensures r.Some? <==> t in Types(entries[..])
      ensures r.Some? ==> r.value < HASH_SIZE && entries[r.value] == t != NO_TYPE
    {
      hide Home;
      var hashidx := Home(hash, t);
      var offset: int, d := maxOffset, 0;
      while true
        invariant d <= maxOffset && offset == maxOffset - d && hashidx == Slot(hash, t, d)
        invariant forall k :: 0 <= k < d ==> Passed(hash, entries[..], t, k)
        decreases maxOffset - d
      {
        if entries[hashidx] == NO_TYPE {
          NotInTable(hash, entries[..], maxOffset, t, d);
          return None;
        }
        if entries[hashidx] == t {
          assert entries[..][hashidx] == t;
          return Some(hashidx);
        }
        assert Passed(hash, entries[..], t, d);
        hashidx := NextSlot(hashidx, t, d);
        if offset <= 0 {
          NotInTable(hash, entries[..], maxOffset, t, d + 1);
          return None;
        }
        offset, d := offset - 1, d + 1;
      }
    }

    method HomeSlot(t: nat) returns (r: nat)
      ensures r == Home(hash, t) == Slot(hash, t, 0)
    {
      r := Home(hash, t);
    }

    method NextSlot(hashidx: nat, ghost t: nat, ghost d: nat) returns (next: nat)
      requires hashidx == Slot(hash, t, d)
      ensures next == Slot(hash, t, d + 1)
    {
      hide Home;
      next := (hashidx + 1) % HASH_SIZE;
    }

    /** set_hash_entry; it ends because the type is there or a slot is free. */
    method Set(t: nat) returns (r: nat)
      requires Valid() && (t in Types(entries[..]) || |Types(entries[..])| < HASH_SIZE)
      modifies this, entries
      ensures Valid() && Types(entries[..]) == Types(old(entries[..])) + ({t} - {NO_TYPE})
      ensures r < HASH_SIZE && entries[r] == t
    {
      hide Home, Types, Probed, Passed, Slot;
      r := HomeSlot(t);
      ProbedSize(hash, entries[..], maxOffset);
      var offset := 0;
      ghost var before := entries[..];
      while true
        invariant r == Slot(hash, t, offset) && offset < HASH_SIZE && Valid() && entries[..] == before
        invariant forall k :: 0 <= k < offset ==> Passed(hash, before, t, k)
        decreases HASH_SIZE - offset
      {
        if entries[r] == NO_TYPE {
          if t != NO_TYPE {
            FillKeepsProbed(hash, before, maxOffset, t, offset);
          } else {
            FillWithNothing(hash, before, maxOffset, r, offset);
          }
          entries[r] := t;
          assert entries[..] == before[r := t];
          if maxOffset < offset {
            maxOffset := offset;
          }
          return;
        }
        if entries[r] == t {
          InTable(before, r);
          return;
        }
        PassedIs(hash, before, t, offset);
        r := NextSlot(r, t, offset);
        offset := offset + 1;
        KeepsStopping(hash, before, maxOffset, t, offset);
      }
    }

    /** displaylist_update_hash with displaylist_update_layers */
    method Update(layers: seq<Layer>, order: int)
      requires entries.Length == HASH_SIZE && Fits(LayersListed(layers, order))
      modifies this, entries
      ensures Valid() && Types(entries[..]) == Types(LayersListed(layers, order))
    {
      hide Home, Probed, Types, Gras, GrasListed, Fits;
      maxOffset := 0;
      Clear();
      EmptyTable(hash, entries[..]);
      ghost var all := LayersListed(layers, order);
      assert layers[..0] == [];
      for l := 0 to |layers|
        invariant Valid() && Types(entries[..]) == Types(LayersListed(layers[..l], order))
      {
        LayersWithin(layers, l, order);
        LayersFewer(layers, l + 1, order);
        AddGras(Gras(layers[l]), order, LayersListed(layers[..l], order), all);
      }
      assert layers[..|layers|] == layers;
    }

    /** The loop over the item graphics of a layer */
    method AddGras(gras: seq<ItemGra>, order: int, ghost done: seq<nat>, ghost all: seq<nat>)
      requires Valid() && Types(entries[..]) == Types(done)
      requires done + GrasListed(gras, order) <= all && Fits(all)
      modifies this, entries
      ensures Valid() && Types(entries[..]) == Types(done + GrasListed(gras, order))
    {
      hide Home, Probed, Types, Listed, Fits;
      assert gras[..0] == [];
      assert done + GrasListed([], order) == done;
      for g := 0 to |gras|
        invariant Valid() && Types(entries[..]) == Types(done + GrasListed(gras[..g], order))
      {
        GrasWithin(gras, g, order);
        GrasFewer(gras, g + 1, order);
        ghost var more := done + GrasListed(gras[..g], order);
        assert more + Listed(gras[g], order) == done + GrasListed(gras[..g + 1], order);
        AddTypes(gras[g], order, more, all);
      }
      assert gras[..|gras|] == gras;
    }

    /** The loop over the types of an item graphics */
    method AddTypes(gra: ItemGra, order: int, ghost done: seq<nat>, ghost all: seq<nat>)
      requires Valid() && Types(entries[..]) == Types(done)
      requires done + Listed(gra, order) <= all && Fits(all)
      modifies this, entries
      ensures Valid() && Types(entries[..]) == Types(done + Listed(gra, order))
    {
      hide Home, Probed, Types, Fits;
      assert done + [] == done;
      if gra.min <= order && gra.max >= order {
        assert gra.types[..0] == [];
        for i := 0 to |gra.types|
          invariant Valid() && Types(entries[..]) == Types(done + gra.types[..i])
        {
          ghost var k := |done| + i;
          assert all[..k] == done + gra.types[..i] && all[k] == gra.types[i];
          assert all[..k + 1] == done + gra.types[..i + 1];
          FitsAt(all, k);
          TypesNext(all, k);
          var _ := Set(gra.types[i]);
        }
        assert gra.types[..|gra.types|] == gra.types;
      }
    }
  }

  lemma EmptyTable(h: Hash, entries: seq<nat>)
    requires |entries| == HASH_SIZE && forall i :: 0 <= i < HASH_SIZE ==> entries[i] == NO_TYPE
    ensures Probed(h, entries, 0) && Types(entries) == {} == Types([])
  {
  }

  /** After an update, a type is found exactly if it is a type and some layer draws it at that order. */
  method FindAfterUpdate(hash: Hash, layers: seq<Layer>, order: int, t: nat) returns (found: bool)
    requires Fits(LayersListed(layers, order))
    ensures found <==> t != NO_TYPE && Draws(layers, order, t)
  {
    hide Probed, Types, LayersListed, Draws, Fits;
    var table := new Table(hash);
    table.Update(layers, order);
    var r := table.Get(t);
    found := r.Some?;
    LayersListedIs(layers, order, t);
    TypesAre(LayersListed(layers, order), t);
  }

  lemma TypesAre(listed: seq<nat>, t: nat)
    ensures t in Types(listed) <==> t in listed && t != NO_TYPE
  {
  }
}
