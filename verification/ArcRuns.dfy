/**
 * Runs of the cache under its client protocol: every access is a lookup and, when it
 * misses, an insertion of the same id (navit/file.c).
 */
module ArcRuns {
  import opened Wrappers
  import opened ArcState

  /** The new entry a client adds for `dataSize` bytes of data: it starts out pinned once. */
  function NewItem<H>(st: State<H>, id: Id, dataSize: nat, block: H): Item<H> {
    Item(id, 1, dataSize + st.entrySize, Some(block))
  }

  function Access<H>(st: State<H>, id: Id, dataSize: nat, block: H): State<H>
    requires Consistent(st)
  {
    if Resident(st, id) then Lookup(st, id)
    else
      MissIds(st, id);
      Insert(Lookup(st, id), NewItem(st, id, dataSize, block))
  }

  function Unpin<H>(item: Item<H>): Item<H> { item.(usage := item.usage - 1) }

  /** cache_entry_destroy: the client is done with a block it was handed. */
  function Release<H>(st: State<H>, id: Id): State<H> {
    var i1 := IndexOf(st.t1, id);
    var i2 := IndexOf(st.t2, id);
    if i1 >= 0 then st.(t1 := st.t1[i1 := Unpin(st.t1[i1])])
    else if i2 >= 0 then st.(t2 := st.t2[i2 := Unpin(st.t2[i2])])
    else st
  }

  /** cache_flush: the id is forgotten wherever it is. */
  function Flush<H>(st: State<H>, id: Id): State<H> {
    var i1 := IndexOf(st.t1, id);
    var i2 := IndexOf(st.t2, id);
    var j1 := IndexOf(st.b1, id);
    var j2 := IndexOf(st.b2, id);
    if i1 >= 0 then st.(t1 := Without(st.t1, i1))
    else if i2 >= 0 then st.(t2 := Without(st.t2, i2))
    else if j1 >= 0 then st.(b1 := Without(st.b1, j1))
    else if j2 >= 0 then st.(b2 := Without(st.b2, j2))
    else st
  }

  datatype Op<H> =
    | Use(id: Id, dataSize: nat, block: H)
    | Done(id: Id)
    | Forget(id: Id)

  function Step<H>(st: State<H>, op: Op<H>): State<H>
    requires Consistent(st)
  {
    match op
    case Use(id, n, block) => Access(st, id, n, block)
    case Done(id) => Release(st, id)
    case Forget(id) => Flush(st, id)
  }

  // ------------------------------------------------------- every step is safe

  lemma EvictOne<H>(s: seq<Item<H>>)
    ensures var k := LastUnpinned(s);
      && (k < 0 <==> AllPinned(s))
      && (k < 0 ==> AfterEviction(s) == s)
      && (k >= 0 ==> Ids(s) == Ids(AfterEviction(s)) + multiset{s[k].id} && |AfterEviction(s)| == |s| - 1)
  {
    hide Ids, TotalSize;
    var k := LastUnpinned(s);
    if k >= 0 {
      SplitAt(s, k);
    }
  }

  datatype Place = PlaceT1 | PlaceB1 | PlaceB2

  /** Evicting for good from one of the three lists that cache_insert evicts from. */
  function Evict<H>(st: State<H>, p: Place): State<H> {
    match p
    case PlaceT1 => st.(t1 := AfterEviction(st.t1))
    case PlaceB1 => st.(b1 := AfterEviction(st.b1))
    case PlaceB2 => st.(b2 := AfterEviction(st.b2))
  }

  lemma EvictIds<H>(st: State<H>, p: Place)
    ensures AllIds(Evict(st, p)) <= AllIds(st)
  {
    hide Ids, TotalSize, LastUnpinned, AfterEviction;
    EvictOne(st.t1);
    EvictOne(st.b1);
    EvictOne(st.b2);
  }

  lemma EvictConsistent<H>(st: State<H>, p: Place)
    requires Consistent(st)
    ensures Consistent(Evict(st, p))
  {
    EvictIds(st, p);
    hide Ids, TotalSize, LastUnpinned, AllIds;
    assert forall id :: AllIds(Evict(st, p))[id] <= AllIds(st)[id];
  }

  /** Making room drops ids but adds none, and leaves the cache consistent. */
  lemma MakeRoomIds<H>(st: State<H>)
    requires Consistent(st)
    ensures Consistent(MakeRoom(st)) && AllIds(MakeRoom(st)) <= AllIds(st)
    ensures MakeRoom(st).insert == st.insert && MakeRoom(st).entrySize == st.entrySize
  {
    hide Ids, TotalSize, LastUnpinned, Replace, AllIds, AfterEviction, Consistent;
    EvictIds(st, PlaceT1); EvictIds(st, PlaceB1); EvictIds(st, PlaceB2);
    EvictConsistent(st, PlaceT1); EvictConsistent(st, PlaceB1); EvictConsistent(st, PlaceB2);
    ReplaceMovesOne(Evict(st, PlaceB1)); ReplaceConsistent(Evict(st, PlaceB1));
    ReplaceMovesOne(Evict(st, PlaceB2)); ReplaceConsistent(Evict(st, PlaceB2));
    ReplaceMovesOne(st); ReplaceConsistent(st);
  }

  lemma InsertConsistent<H>(st: State<H>, item: Item<H>)
    requires Consistent(st) && st.insert != Unset
    requires item.id !in AllIds(st) && item.size >= st.entrySize && item.block.Some?
    ensures Consistent(Insert(st, item))
    ensures item.id in AllIds(Insert(st, item)) && AllIds(Insert(st, item)) <= AllIds(st) + multiset{item.id}
  {
    hide Ids, TotalSize, MakeRoom;
    MakeRoomIds(st);
    var room := if st.insert == AtT1 then MakeRoom(st) else st;
    Prepend(item, room.t1);
    Prepend(item, room.t2);
    var r := Insert(st, item);
    assert AllIds(r) == AllIds(room) + multiset{item.id};
  }

  lemma {:induction false} IdsAfterUpdate<H>(s: seq<Item<H>>, k: int, x: Item<H>)
    requires 0 <= k < |s| && x.id == s[k].id
    ensures Ids(s[k := x]) == Ids(s)
  {
    hide Ids, TotalSize;
    assert s == s[..k] + [s[k]] + s[k + 1..];
    assert s[k := x] == s[..k] + [x] + s[k + 1..];
    Around(s[..k], s[k], s[k + 1..]);
    Around(s[..k], x, s[k + 1..]);
  }

  lemma ReleaseConsistent<H>(st: State<H>, id: Id)
    requires Consistent(st)
    ensures Consistent(Release(st, id)) && AllIds(Release(st, id)) == AllIds(st)
  {
    hide Ids, TotalSize, IndexOf;
    var i1 := IndexOf(st.t1, id);
    var i2 := IndexOf(st.t2, id);
    if i1 >= 0 {
      IdsAfterUpdate(st.t1, i1, Unpin(st.t1[i1]));
    } else if i2 >= 0 {
      IdsAfterUpdate(st.t2, i2, Unpin(st.t2[i2]));
    }
    assert AllIds(Release(st, id)) == AllIds(st);
  }

  lemma FlushIds<H>(st: State<H>, id: Id)
    ensures AllIds(Flush(st, id)) == AllIds(st) - multiset{id}
  {
    ResidentIffKnown(st, id);
    hide Ids, TotalSize, IndexOf;
    var i1 := IndexOf(st.t1, id);
    var i2 := IndexOf(st.t2, id);
    var j1 := IndexOf(st.b1, id);
    var j2 := IndexOf(st.b2, id);
    if i1 >= 0 {
      SplitAt(st.t1, i1);
    } else if i2 >= 0 {
      SplitAt(st.t2, i2);
    } else if j1 >= 0 {
      SplitAt(st.b1, j1);
    } else if j2 >= 0 {
      SplitAt(st.b2, j2);
    }
  }

  lemma StillFits<H>(s: seq<Item<H>>, k: int, entrySize: int)
    ensures 0 <= k < |s| && Residents(s, entrySize) ==> Residents(Without(s, k), entrySize)
    ensures 0 <= k < |s| && Ghosts(s, entrySize) ==> Ghosts(Without(s, k), entrySize)
  {
  }

  lemma FlushConsistent<H>(st: State<H>, id: Id)
    requires Consistent(st)
    ensures Consistent(Flush(st, id))
  {
    assert IdsUnique(Flush(st, id)) by {
      hide Flush, AllIds;
      FlushIds(st, id);
    }
    hide Ids, TotalSize, IndexOf, IdsUnique, Residents, Ghosts, Without;
    StillFits(st.t1, IndexOf(st.t1, id), st.entrySize);
    StillFits(st.t2, IndexOf(st.t2, id), st.entrySize);
    StillFits(st.b1, IndexOf(st.b1, id), st.entrySize);
    StillFits(st.b2, IndexOf(st.b2, id), st.entrySize);
  }

  /** Every operation keeps the invariant, and afterwards the id it used is known. */
  lemma StepConsistent<H>(st: State<H>, op: Op<H>)
    requires Consistent(st)
    ensures Consistent(Step(st, op))
    ensures op.Use? ==> op.id in AllIds(Step(st, op))
    ensures op.Forget? ==> op.id !in AllIds(Step(st, op))
  {
    hide Ids, TotalSize, IndexOf, Lookup, Insert, Flush, Release, AllIds;
    match op
    case Use(id, n, block) =>
      if Resident(st, id) {
        HitConsistent(st, id);
        HitIds(st, id);
        ResidentIffKnown(st, id);
      } else {
        MissIds(st, id);
        InsertConsistent(Lookup(st, id), NewItem(st, id, n, block));
      }
    case Done(id) => ReleaseConsistent(st, id);
    case Forget(id) =>
      FlushConsistent(st, id);
      FlushIds(st, id);
      assert AllIds(st)[id] <= 1;
  }

  // ------------------------------------------------------- bounds over runs

  /** The number of bare headers that fit, rounded up: the capacity counted in entries. */
  function Capacity(size: int, entrySize: int): int
    requires entrySize > 0
  {
    (size + entrySize - 1) / entrySize
  }

  /** The bounds of the adaptive replacement cache, counted in entries, with `slack` to spare. */
  ghost predicate Bounded<H>(st: State<H>, slack: int)
    requires st.entrySize > 0
  {
    && |st.t1| + |st.t2| <= Capacity(st.size, st.entrySize) + slack
    && |st.t1| + |st.b1| <= Capacity(st.size, st.entrySize) + slack
    && |st.t1| + |st.t2| + |st.b1| + |st.b2| <= 2 * Capacity(st.size, st.entrySize) + slack
  }

  /**
   * Whether accessing `id` calls for an eviction among residents that are all pinned: a
   * new id looks only at T1 once T1 alone has filled the cache, and at both lists otherwise.
   */
  predicate Blocked<H>(st: State<H>, id: Id) {
    if Resident(st, id) then false
    else if IndexOf(st.b1, id) >= 0 || IndexOf(st.b2, id) >= 0 then NothingToReplace(st)
    else BlockedNew(st)
  }

  predicate BlockedNew<H>(st: State<H>) {
    if TotalSize(st.t1) >= st.size then LastUnpinned(st.t1) < 0
    else (TotalSize(st.t1) + TotalSize(st.b1) >= st.size || Held(st) >= st.size) && NothingToReplace(st)
  }

  predicate NothingToReplace<H>(st: State<H>) {
    st.t1 + st.t2 != [] && LastUnpinned(st.t1) < 0 && LastUnpinned(st.t2) < 0
  }

  lemma Monotone(unit: int, a: int, b: int)
    requires unit > 0
    ensures a <= b ==> unit * a <= unit * b
  {
    assert unit * b == unit * a + unit * (b - a);
  }

  /** Entries that fill fewer than `limit` bytes leave room for one more. */
  lemma RoomForOneMore(unit: int, count: int, limit: int)
    requires unit > 0 && unit * count < limit
    ensures count + 1 <= (limit + unit - 1) / unit
  {
    var k := (limit + unit - 1) / unit;
    assert limit + unit - 1 == unit * k + (limit + unit - 1) % unit;
    assert unit * k >= limit;
    Monotone(unit, k, count);
  }

  lemma CapacityTwice(unit: int, limit: int)
    requires unit > 0
    ensures (2 * limit + unit - 1) / unit <= 2 * ((limit + unit - 1) / unit)
  {
    var k := (limit + unit - 1) / unit;
    var q := (2 * limit + unit - 1) / unit;
    assert limit <= unit * k;
    assert unit * q <= 2 * limit + unit - 1;
    assert unit * (2 * k + 1) == 2 * (unit * k) + unit;
    Monotone(unit, 2 * k + 1, q);
  }

  /** Each entry takes at least its header. */
  lemma BytesPerEntry<H>(st: State<H>)
    requires Consistent(st)
    ensures st.entrySize * (|st.t1| + |st.b1|) <= TotalSize(st.t1) + TotalSize(st.b1)
    ensures st.entrySize * (|st.t1| + |st.t2| + |st.b1| + |st.b2|) <= Held(st)
  {
    hide TotalSize, IdsUnique;
    var u := st.entrySize;
    TotalSizeAtLeast(st.t1, u);
    TotalSizeAtLeast(st.t2, u);
    TotalSizeAtLeast(st.b1, u);
    TotalSizeAtLeast(st.b2, u);
    assert u * (|st.t1| + |st.b1|) == u * |st.t1| + u * |st.b1|;
    assert u * (|st.t1| + |st.t2| + |st.b1| + |st.b2|) == u * |st.t1| + u * |st.t2| + u * |st.b1| + u * |st.b2|;
  }

  /** Lists that hold few bytes hold few entries. */
  lemma FewBytesFewEntries<H>(st: State<H>)
    requires Consistent(st)
    ensures 1 <= Capacity(st.size, st.entrySize)
    ensures TotalSize(st.t1) + TotalSize(st.b1) < st.size ==> |st.t1| + |st.b1| + 1 <= Capacity(st.size, st.entrySize)
    ensures Held(st) < st.size ==> |st.t1| + |st.t2| + |st.b1| + |st.b2| + 1 <= Capacity(st.size, st.entrySize)
    ensures Held(st) < 2 * st.size ==> |st.t1| + |st.t2| + |st.b1| + |st.b2| + 1 <= 2 * Capacity(st.size, st.entrySize)
  {
    BytesPerEntry(st);
    hide TotalSize, IdsUnique, Held;
    var u := st.entrySize;
    RoomForOneMore(u, 0, st.size);
    if TotalSize(st.t1) + TotalSize(st.b1) < st.size {
      RoomForOneMore(u, |st.t1| + |st.b1|, st.size);
    }
    if Held(st) < st.size {
      RoomForOneMore(u, |st.t1| + |st.t2| + |st.b1| + |st.b2|, st.size);
    }
    if Held(st) < 2 * st.size {
      RoomForOneMore(u, |st.t1| + |st.t2| + |st.b1| + |st.b2|, 2 * st.size);
      CapacityTwice(u, st.size);
    }
  }

  /** The effect of a replacement on the four lengths. */
  lemma ReplaceCounts<H>(st: State<H>)
    ensures var r := Replace(st);
      && |r.t1| + |r.t2| == |st.t1| + |st.t2| - (if AllPinned(st.t1) && AllPinned(st.t2) then 0 else 1)
      && |r.t1| + |r.b1| <= |st.t1| + |st.b1|
      && |r.t1| + |r.t2| + |r.b1| + |r.b2| == |st.t1| + |st.t2| + |st.b1| + |st.b2|
      && r.size == st.size && r.entrySize == st.entrySize && r.insert == st.insert
  {
    hide Ids, TotalSize, LastUnpinned, Replace, AllIds, AfterEviction;
    ReplaceMovesOne(st);
  }

  /** A list of ghosts can always give one up. */
  lemma GhostsEvict<H>(s: seq<Item<H>>, entrySize: int)
    requires Ghosts(s, entrySize)
    ensures |AfterEviction(s)| == if s == [] then 0 else |s| - 1
  {
    EvictLength(s);
    assert s != [] ==> s[0].usage == 0;
  }

  lemma EmptyIsZero<H>(s: seq<Item<H>>)
    ensures s == [] ==> TotalSize(s) == 0
  {
  }

  /** What a new id can rely on after room was made. */
  lemma MakeRoomCounts<H>(st: State<H>, slack: int)
    requires Consistent(st) && slack >= 0 && Bounded(st, slack)
    ensures var r := MakeRoom(st);
      var limit := Capacity(st.size, st.entrySize) + slack + if BlockedNew(st) then 1 else 0;
      && r.size == st.size && r.entrySize == st.entrySize
      && |r.t1| + |r.t2| + 1 <= limit
      && |r.t1| + |r.b1| + 1 <= limit
      && |r.t1| + |r.t2| + |r.b1| + |r.b2| + 1 <= Capacity(st.size, st.entrySize) + limit
  {
    hide Ids, TotalSize, LastUnpinned, Replace, AllIds, AfterEviction, IdsUnique, Residents, Ghosts, Capacity, Held,
      AllPinned;
    EmptyIsZero(st.b1);
    FewBytesFewEntries(st);
    EvictLength(st.t1);
    EvictLength(st.t2);
    if TotalSize(st.t1) + TotalSize(st.b1) >= st.size {
      if TotalSize(st.t1) < st.size {
        GhostsEvict(st.b1, st.entrySize);
        ReplaceCounts(st.(b1 := AfterEviction(st.b1)));
      }
    } else if Held(st) >= 2 * st.size {
      GhostsEvict(st.b2, st.entrySize);
      ReplaceCounts(st.(b2 := AfterEviction(st.b2)));
    } else if Held(st) >= st.size {
      ReplaceCounts(st);
    }
  }

  /** The list that a ghost is on has a size to divide by. */
  lemma GhostBytes<H>(st: State<H>, id: Id)
    requires Consistent(st)
    ensures IndexOf(st.b1, id) >= 0 ==> TotalSize(st.b1) > 0
    ensures IndexOf(st.b2, id) >= 0 ==> TotalSize(st.b2) > 0
  {
    hide TotalSize, IdsUnique, IndexOf;
    TotalSizeAtLeast(st.b1, st.entrySize);
    TotalSizeAtLeast(st.b2, st.entrySize);
  }

  /** The state in which a ghost hit calls for a replacement. */
  function GhostDropped<H>(st: State<H>, id: Id): (r: State<H>)
    requires Consistent(st) && !Resident(st, id)
    requires IndexOf(st.b1, id) >= 0 || IndexOf(st.b2, id) >= 0
    ensures r.t1 == st.t1 && r.t2 == st.t2 && |r.b1| <= |st.b1| && |r.b1| + |r.b2| == |st.b1| + |st.b2| - 1
    ensures r.size == st.size && r.entrySize == st.entrySize
  {
    GhostBytes(st, id);
    var j1 := IndexOf(st.b1, id);
    var j2 := IndexOf(st.b2, id);
    if j1 >= 0 then st.(target := TargetAfterB1Hit(st), b1 := Without(st.b1, j1))
    else st.(target := TargetAfterB2Hit(st), b2 := Without(st.b2, j2))
  }

  lemma LookupGhost<H>(st: State<H>, id: Id)
    requires Consistent(st) && !Resident(st, id)
    requires IndexOf(st.b1, id) >= 0 || IndexOf(st.b2, id) >= 0
    ensures Lookup(st, id) == Replace(GhostDropped(st, id)).(insert := AtT2)
  {
    hide Ids, TotalSize, LastUnpinned, Replace, AllIds, AfterEviction, IdsUnique, Residents, Ghosts, IndexOf;
  }

  /** A ghost hit forgets one ghost and turns one resident into another, unless none is free. */
  lemma GhostHitCounts<H>(st: State<H>, id: Id)
    requires Consistent(st) && !Resident(st, id)
    requires IndexOf(st.b1, id) >= 0 || IndexOf(st.b2, id) >= 0
    ensures var r := Lookup(st, id);
      && |r.t1| + |r.t2| == |st.t1| + |st.t2| - (if AllPinned(st.t1) && AllPinned(st.t2) then 0 else 1)
      && |r.t1| + |r.b1| <= |st.t1| + |st.b1|
      && |r.t1| + |r.t2| + |r.b1| + |r.b2| == |st.t1| + |st.t2| + |st.b1| + |st.b2| - 1
      && r.size == st.size && r.entrySize == st.entrySize && r.insert == AtT2
  {
    hide Ids, TotalSize, LastUnpinned, Replace, AllIds, AfterEviction, IdsUnique, Residents, Ghosts, IndexOf, Lookup,
      AllPinned, GhostDropped, Consistent, Resident;
    LookupGhost(st, id);
    ReplaceCounts(GhostDropped(st, id));
  }

  /**
   * One access, whatever the sizes and pins: the bounds can loosen only when the access is
   * blocked, and then by at most one entry.
   */
  lemma AccessBounded<H>(st: State<H>, id: Id, dataSize: nat, block: H, slack: int)
    requires Consistent(st) && slack >= 0 && Bounded(st, slack)
    ensures var r := Access(st, id, dataSize, block);
      && r.size == st.size && r.entrySize == st.entrySize
      && Bounded(r, slack + if Blocked(st, id) then 1 else 0)
  {
    hide Ids, TotalSize, LastUnpinned, Replace, AllIds, AfterEviction, IdsUnique, Residents, Ghosts, IndexOf, Lookup,
      AllPinned, MakeRoom, Resident, Capacity;
    if Resident(st, id) {
      HitMovesToFront(st, id);
    } else {
      MissIds(st, id);
      ResidentIffKnown(st, id);
      FewBytesFewEntries(st);
      EvictLength(st.t1);
      EvictLength(st.t2);
      if id in AllIds(st) {
        GhostHitCounts(st, id);
        NoResidentsNoPins(st);
      } else {
        LookupUnknown(st, id);
        SameRoom(st);
        MakeRoomCounts(st, slack);
      }
    }
  }

  /** Whether one entry more, with none given up, breaks a bound that holds so far. */
  predicate Full<H>(st: State<H>, id: Id)
    requires st.entrySize > 0
  {
    var k := Capacity(st.size, st.entrySize);
    || |st.t1| + |st.t2| >= k
    || (IndexOf(st.b1, id) < 0 && IndexOf(st.b2, id) < 0 && TotalSize(st.t1) >= st.size
        && (|st.t1| + |st.b1| >= k || |st.t1| + |st.t2| + |st.b1| + |st.b2| >= 2 * k))
  }

  /** An access breaks the bounds just if all candidates for eviction are pinned and there is no entry to spare. */
  lemma AccessBoundedExactly<H>(st: State<H>, id: Id, dataSize: nat, block: H)
    requires Consistent(st) && Bounded(st, 0)
    ensures Access(st, id, dataSize, block).entrySize == st.entrySize
    ensures Bounded(Access(st, id, dataSize, block), 0) <==> !(Blocked(st, id) && Full(st, id))
  {
    hide Ids, TotalSize, LastUnpinned, Replace, AllIds, AfterEviction, IdsUnique, Residents, Ghosts, IndexOf, Lookup,
      AllPinned, MakeRoom, Capacity, BlockedNew;
    AccessBounded(st, id, dataSize, block, 0);
    if Blocked(st, id) {
      MissIds(st, id);
      ResidentIffKnown(st, id);
      if id in AllIds(st) {
        EvictLength(st.t1);
        EvictLength(st.t2);
        GhostHitCounts(st, id);
      } else {
        LookupUnknown(st, id);
        SameRoom(st);
        BlockedRoom(st);
      }
    }
  }

  /** No resident is given up for a new id that is blocked, and a ghost only if T1 alone has not filled the cache. */
  lemma BlockedRoom<H>(st: State<H>)
    requires Consistent(st) && Bounded(st, 0) && BlockedNew(st)
    ensures var r, k := MakeRoom(st), Capacity(st.size, st.entrySize);
      && r.t1 == st.t1 && r.t2 == st.t2
      && (TotalSize(st.t1) >= st.size ==> r == st)
      && (TotalSize(st.t1) < st.size ==>
            |r.t1| + |r.b1| + 1 <= k && |r.t1| + |r.t2| + |r.b1| + |r.b2| + 1 <= 2 * k)
  {
    hide Ids, TotalSize, LastUnpinned, Replace, AllIds, AfterEviction, IdsUnique, Residents, Ghosts, Capacity, Held,
      AllPinned;
    EmptyIsZero(st.b1);
    FewBytesFewEntries(st);
    EvictLength(st.t1);
    EvictLength(st.t2);
    BytesAtLeastNone(st);
    if TotalSize(st.t1) >= st.size {
    } else if TotalSize(st.t1) + TotalSize(st.b1) >= st.size {
      GhostsEvict(st.b1, st.entrySize);
      ReplaceMovesOne(st.(b1 := AfterEviction(st.b1)));
    } else if Held(st) >= 2 * st.size {
      GhostsEvict(st.b2, st.entrySize);
      ReplaceMovesOne(st.(b2 := AfterEviction(st.b2)));
    } else {
      ReplaceMovesOne(st);
    }
  }

  lemma BytesAtLeastNone<H>(st: State<H>)
    requires Consistent(st)
    ensures TotalSize(st.b1) >= 0
  {
    hide TotalSize, IdsUnique;
    TotalSizeAtLeast(st.b1, st.entrySize);
  }

  lemma NoResidentsNoPins<H>(st: State<H>)
    ensures st.t1 + st.t2 == [] ==> |st.t1| + |st.t2| == 0
  {
  }

  lemma LookupUnknown<H>(st: State<H>, id: Id)
    requires Consistent(st) && id !in AllIds(st)
    ensures !Resident(st, id) && IndexOf(st.b1, id) < 0 && IndexOf(st.b2, id) < 0
    ensures Lookup(st, id) == st.(insert := AtT1)
  {
    ResidentIffKnown(st, id);
  }

  /** Making room does not look at where the insertion will go. */
  lemma SameRoom<H>(st: State<H>)
    ensures MakeRoom(st.(insert := AtT1)) == MakeRoom(st).(insert := AtT1)
  {
    hide Ids, TotalSize, LastUnpinned, AllIds, AfterEviction;
  }

  lemma StepBounded<H>(st: State<H>, op: Op<H>, slack: int)
    requires Consistent(st) && slack >= 0 && Bounded(st, slack)
    ensures var r := Step(st, op);
      && r.size == st.size && r.entrySize == st.entrySize
      && Bounded(r, slack + if op.Use? && Blocked(st, op.id) then 1 else 0)
  {
    hide Ids, TotalSize, IndexOf, AllIds, IdsUnique, Residents, Ghosts, Access, Capacity, Blocked;
    match op
    case Use(id, n, block) => AccessBounded(st, id, n, block, slack);
    case Done(_) =>
    case Forget(_) =>
  }

  function Run<H>(st: State<H>, ops: seq<Op<H>>): (r: State<H>)
    requires Consistent(st)
    ensures Consistent(r)
    decreases |ops|
  {
    if ops == [] then st
    else
      StepConsistent(st, ops[0]);
      Run(Step(st, ops[0]), ops[1..])
  }

  /** How often, along a run, an access found every resident it could evict pinned. */
  function BlockedSteps<H>(st: State<H>, ops: seq<Op<H>>): nat
    requires Consistent(st)
    decreases |ops|
  {
    if ops == [] then 0
    else
      StepConsistent(st, ops[0]);
      (if ops[0].Use? && Blocked(st, ops[0].id) then 1 else 0) + BlockedSteps(Step(st, ops[0]), ops[1..])
  }

  function Empty<H>(size: int, entrySize: int): State<H> {
    State([], [], [], [], Unset, size, entrySize, 0)
  }

  /**
   * Main bound, for every run: no more residents, no more recent entries and no more than
   * twice as many entries altogether as bare headers would fit, up to one more for every
   * access that found all candidates pinned.
   */
  lemma {:induction false} RunBounded<H>(st: State<H>, ops: seq<Op<H>>, slack: int)
    requires Consistent(st) && slack >= 0 && Bounded(st, slack)
    ensures Run(st, ops).size == st.size && Run(st, ops).entrySize == st.entrySize
    ensures Bounded(Run(st, ops), slack + BlockedSteps(st, ops))
    decreases |ops|
  {
    hide Step, Blocked, Bounded, Consistent;
    if ops != [] {
      StepConsistent(st, ops[0]);
      StepBounded(st, ops[0], slack);
      RunBounded(Step(st, ops[0]), ops[1..], slack + if ops[0].Use? && Blocked(st, ops[0].id) then 1 else 0);
    }
  }

  /** A step of a run that finds all candidates pinned and has no entry to spare */
  predicate Breaks<H>(st: State<H>, op: Op<H>)
    requires st.entrySize > 0
  {
    op.Use? && Blocked(st, op.id) && Full(st, op.id)
  }

  predicate SomeBreaks<H>(st: State<H>, ops: seq<Op<H>>)
    requires Consistent(st)
    decreases |ops|
  {
    ops != [] && (Breaks(st, ops[0]) || (StepConsistent(st, ops[0]); SomeBreaks(Step(st, ops[0]), ops[1..])))
  }

  lemma StepBoundedExactly<H>(st: State<H>, op: Op<H>)
    requires Consistent(st) && Bounded(st, 0)
    ensures Step(st, op).entrySize == st.entrySize
    ensures Bounded(Step(st, op), 0) <==> !Breaks(st, op)
  {
    hide Access, Bounded, Blocked, Full, Consistent;
    StepBounded(st, op, 0);
    if op.Use? {
      AccessBoundedExactly(st, op.id, op.dataSize, op.block);
    }
  }

  lemma RunBehind<H>(st: State<H>, ops: seq<Op<H>>, k: nat)
    requires Consistent(st) && k < |ops|
    ensures Consistent(Step(st, ops[0]))
    ensures Run(st, ops[..k + 1]) == Run(Step(st, ops[0]), ops[1..][..k])
  {
    hide Step, Consistent;
    StepConsistent(st, ops[0]);
    assert ops[..k + 1][0] == ops[0] && ops[..k + 1][1..] == ops[1..][..k];
  }

  ghost predicate StaysBounded<H>(st: State<H>, ops: seq<Op<H>>)
    requires Consistent(st)
  {
    forall k :: 0 <= k <= |ops| ==> Bounded(Run(st, ops[..k]), 0)
  }

  lemma StaysBoundedBehind<H>(st: State<H>, ops: seq<Op<H>>)
    requires Consistent(st) && Bounded(st, 0) && ops != []
    ensures Consistent(Step(st, ops[0]))
    ensures StaysBounded(st, ops) <==> StaysBounded(Step(st, ops[0]), ops[1..])
  {
    StepConsistent(st, ops[0]);
    assert forall r: State<H> :: Consistent(r) ==> r.entrySize > 0;
    hide Step, Bounded, Consistent, Run;
    var next, rest := Step(st, ops[0]), ops[1..];
    if StaysBounded(st, ops) {
      forall k | 0 <= k <= |rest|
        ensures Bounded(Run(next, rest[..k]), 0)
      {
        RunBehind(st, ops, k);
        assert Bounded(Run(st, ops[..k + 1]), 0);
      }
    }
    if StaysBounded(next, rest) {
      forall k | 0 <= k <= |ops|
        ensures Bounded(Run(st, ops[..k]), 0)
      {
        if k == 0 {
          NoSteps(st, ops);
        } else {
          RunBehind(st, ops, k - 1);
          assert Bounded(Run(next, rest[..k - 1]), 0);
        }
      }
    }
  }

  lemma NoSteps<H>(st: State<H>, ops: seq<Op<H>>)
    requires Consistent(st)
    ensures Run(st, ops[..0]) == st
  {
  }

  /** The bounds hold all along a run just if no step of it is blocked without an entry to spare. */
  lemma {:induction false} RunBoundedExactly<H>(st: State<H>, ops: seq<Op<H>>)
    requires Consistent(st) && Bounded(st, 0)
    ensures StaysBounded(st, ops) <==> !SomeBreaks(st, ops)
    decreases |ops|
  {
    assert forall r: State<H> :: Consistent(r) ==> r.entrySize > 0;
    hide Step, Bounded, Consistent, Breaks, Run;
    NoSteps(st, ops);
    if ops == [] {
      assert forall k :: 0 <= k <= |ops| ==> ops[..k] == ops[..0];
    } else {
      StaysBoundedBehind(st, ops);
      StepBoundedExactly(st, ops[0]);
      NoSteps(Step(st, ops[0]), ops[1..]);
      if !Breaks(st, ops[0]) {
        RunBoundedExactly(Step(st, ops[0]), ops[1..]);
      }
    }
  }

  /** A fresh cache whose clients never pin all candidates keeps the bounds without slack. */
  lemma FreshRunBounded<H>(size: int, entrySize: int, ops: seq<Op<H>>)
    requires size > 0 && entrySize > 0
    ensures Consistent(Empty<H>(size, entrySize))
    ensures StaysBounded(Empty<H>(size, entrySize), ops) <==> !SomeBreaks(Empty<H>(size, entrySize), ops)
    ensures BlockedSteps(Empty<H>(size, entrySize), ops) == 0 ==>
      var r := Run(Empty<H>(size, entrySize), ops);
      var k := Capacity(size, entrySize);
      |r.t1| + |r.t2| <= k && |r.t1| + |r.b1| <= k && |r.t1| + |r.t2| + |r.b1| + |r.b2| <= 2 * k
  {
    var st := Empty<H>(size, entrySize);
    EmptyConsistent<H>(size, entrySize);
    hide Run, BlockedSteps, Consistent;
    RoomForOneMore(entrySize, 0, size);
    RunBounded(st, ops, 0);
    RunBoundedExactly(st, ops);
  }

  /** The two entries of the counterexample below. */
  const FIRST_PINNED: Item<int> := Item([1], 1, 1, Some(10))
  const SECOND_PINNED: Item<int> := Item([2], 1, 1, Some(20))

  lemma EmptyConsistent<H>(size: int, entrySize: int)
    requires size > 0 && entrySize > 0
    ensures Consistent(Empty<H>(size, entrySize))
  {
    assert AllIds(Empty<H>(size, entrySize)) == multiset{};
  }

  lemma FirstUse()
    ensures Consistent(Empty<int>(1, 1)) && !Blocked(Empty<int>(1, 1), [1])
    ensures Access(Empty<int>(1, 1), [1], 0, 10) == State([FIRST_PINNED], [], [], [], AtT1, 1, 1, 0)
  {
    EmptyConsistent<int>(1, 1);
    hide Consistent, AllIds, Replace, Ids;
    var st := Empty<int>(1, 1);
    assert Lookup(st, [1]) == st.(insert := AtT1);
    assert MakeRoom(st.(insert := AtT1)) == st.(insert := AtT1);
  }

  lemma SecondUse()
    ensures var st := State([FIRST_PINNED], [], [], [], AtT1, 1, 1, 0);
      && Consistent(st) && Blocked(st, [2])
      && Access(st, [2], 0, 20) == State([SECOND_PINNED, FIRST_PINNED], [], [], [], AtT1, 1, 1, 0)
  {
    var st := State([FIRST_PINNED], [], [], [], AtT1, 1, 1, 0);
    FirstUse();
    StepConsistent(Empty<int>(1, 1), Use([1], 0, 10));
    assert [1] != [2] by { assert [1][0] != [2][0]; }
    assert st.t1[1..] == [];
    assert TotalSize(st.t1) == 1;
    assert LastUnpinned(st.t1) < 0;
    assert [SECOND_PINNED] + [FIRST_PINNED] == [SECOND_PINNED, FIRST_PINNED];
    assert IndexOf(st.t1, [2]) < 0;
    assert MakeRoom(st) == st;
  }

  /**
   * Pins do break the bound: a cache with room for one header that is asked for two ids
   * while both blocks are in use holds both.
   */
  lemma PinsBreakTheBound()
    ensures var st := Empty<int>(1, 1);
      var ops := [Use([1], 0, 10), Use([2], 0, 20)];
      && Consistent(st) && Capacity(1, 1) == 1
      && |Run(st, ops).t1| == 2 && BlockedSteps(st, ops) == 1
  {
    FirstUse();
    SecondUse();
    hide Access, Blocked, Consistent;
    var ops := [Use([1], 0, 10), Use([2], 0, 20)];
    var st1 := Step(Empty<int>(1, 1), ops[0]);
    assert ops[1..] == [ops[1]] && ops[1..][1..] == [];
    StepConsistent(st1, ops[1]);
    assert Run(st1, ops[1..]) == Run(Step(st1, ops[1]), []);
    assert BlockedSteps(st1, ops[1..]) == 1;
  }
}
