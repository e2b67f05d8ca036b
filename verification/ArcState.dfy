/**
 * The adaptive replacement cache of navit/cache.c as a machine over values.
 *
 * T1 and T2 hold resident entries, B1 and B2 hold ghosts: entries cut down to their
 * header.  A list is written from its most recently used end (`first`) to its least
 * recently used end (`last`).  Sizes are bytes, header included.
 */
module ArcState {
  import opened Wrappers

  /** The words of an entry id; two ids are the same when all words agree. */
  type Id = seq<int>

  /** One entry.  `block` is the client's data block; a trimmed ghost has none. */
  datatype Item<H> = Item(id: Id, usage: int, size: int, block: Option<H>)

  /** The list that the next insertion goes to; unset before the first lookup. */
  datatype InsertAt = Unset | AtT1 | AtT2

  datatype State<H> = State(
    t1: seq<Item<H>>, b1: seq<Item<H>>, t2: seq<Item<H>>, b2: seq<Item<H>>,
    insert: InsertAt, size: int, entrySize: int, target: int)

  function Max(a: int, b: int): int { if a > b then a else b }
  function Min(a: int, b: int): int { if a < b then a else b }

  /** The `size` field a list must have. */
  function TotalSize<H>(s: seq<Item<H>>): int
  {
    if s == [] then 0 else s[0].size + TotalSize(s[1..])
  }

  lemma {:induction false} TotalSizeConcat<H>(a: seq<Item<H>>, b: seq<Item<H>>)
    ensures TotalSize(a + b) == TotalSize(a) + TotalSize(b)
  {
    if a == [] {
      assert a + b == b;
    } else {
      assert (a + b)[1..] == a[1..] + b;
      TotalSizeConcat(a[1..], b);
    }
  }

  /** A list of entries of at least `unit` bytes holds at least `unit` bytes for each entry. */
  lemma {:induction false} TotalSizeAtLeast<H>(s: seq<Item<H>>, unit: int)
    requires unit > 0
    requires forall i :: 0 <= i < |s| ==> s[i].size >= unit
    ensures TotalSize(s) >= unit * |s|
  {
    if s != [] {
      TotalSizeAtLeast(s[1..], unit);
      assert unit * |s| == unit + unit * |s[1..]| by { assert |s| == 1 + |s[1..]|; }
    }
  }

  function Without<T>(s: seq<T>, k: int): seq<T>
    requires 0 <= k < |s|
  {
    s[..k] + s[k + 1..]
  }

  // ---------------------------------------------------------------- eviction

  /** The position of the least recently used entry that nobody uses, or -1. */
  function LastUnpinned<H>(s: seq<Item<H>>): (k: int)
    ensures -1 <= k < |s|
    ensures k >= 0 ==> s[k].usage == 0
    ensures forall j :: k < j < |s| ==> s[j].usage != 0
  {
    if s == [] then -1
    else if s[|s| - 1].usage == 0 then |s| - 1
    else LastUnpinned(s[..|s| - 1])
  }

  ghost predicate AllPinned<H>(s: seq<Item<H>>) {
    forall i :: 0 <= i < |s| ==> s[i].usage != 0
  }

  /**
   * What is left after evicting: the pinned entries behind the victim have been rotated
   * to the front.
   */
  function AfterEviction<H>(s: seq<Item<H>>): seq<Item<H>> {
    var k := LastUnpinned(s);
    if k < 0 then s else s[k + 1..] + s[..k]
  }

  /** Cutting a ghost down to its header. */
  function Trim<H>(item: Item<H>, entrySize: int): Item<H> {
    if entrySize < item.size then item.(size := entrySize, block := None) else item
  }

  function MoveT1<H>(st: State<H>): State<H> {
    var k := LastUnpinned(st.t1);
    if k < 0 then st
    else st.(t1 := AfterEviction(st.t1), b1 := [Trim(st.t1[k], st.entrySize)] + st.b1)
  }

  function MoveT2<H>(st: State<H>): State<H> {
    var k := LastUnpinned(st.t2);
    if k < 0 then st
    else st.(t2 := AfterEviction(st.t2), b2 := [Trim(st.t2[k], st.entrySize)] + st.b2)
  }

  /** Turns one resident into a ghost, from T1 when T1 has reached its target. */
  function Replace<H>(st: State<H>): State<H> {
    if TotalSize(st.t1) >= Max(1, st.target) then
      if LastUnpinned(st.t1) >= 0 then MoveT1(st) else MoveT2(st)
    else
      if LastUnpinned(st.t2) >= 0 then MoveT2(st) else MoveT1(st)
  }

  // ------------------------------------------------------------- operations

  function IndexOf<H>(s: seq<Item<H>>, id: Id): (k: int)
    ensures -1 <= k < |s|
    ensures k >= 0 ==> s[k].id == id
    ensures k < 0 ==> forall i :: 0 <= i < |s| ==> s[i].id != id
    ensures forall i :: 0 <= i < k ==> s[i].id != id
  {
    if s == [] then -1
    else if s[0].id == id then 0
    else
      var k := IndexOf(s[1..], id);
      if k < 0 then -1 else k + 1
  }

  predicate Resident<H>(st: State<H>, id: Id) {
    IndexOf(st.t1, id) >= 0 || IndexOf(st.t2, id) >= 0
  }

  function Hit<H>(item: Item<H>): Item<H> { item.(usage := item.usage + 1) }

  /** A hit in B1 raises the target for T1: by more, the larger B2 is beside B1. */
  function Raised(target: int, b1Size: int, b2Size: int, size: int): int
    requires b1Size > 0
  {
    Min(target + Max(b2Size / b1Size, 1), size)
  }

  /** A hit in B2 lowers it. */
  function Lowered(target: int, b1Size: int, b2Size: int): int
    requires b2Size > 0
  {
    Max(target - Max(b1Size / b2Size, 1), 0)
  }

  function TargetAfterB1Hit<H>(st: State<H>): int
    requires TotalSize(st.b1) > 0
  {
    Raised(st.target, TotalSize(st.b1), TotalSize(st.b2), st.size)
  }

  function TargetAfterB2Hit<H>(st: State<H>): int
    requires TotalSize(st.b2) > 0
  {
    Lowered(st.target, TotalSize(st.b1), TotalSize(st.b2))
  }

  /** cache_lookup: the state afterwards. */
  function Lookup<H>(st: State<H>, id: Id): State<H>
    requires Consistent(st)
  {
    var i1 := IndexOf(st.t1, id);
    var i2 := IndexOf(st.t2, id);
    var j1 := IndexOf(st.b1, id);
    var j2 := IndexOf(st.b2, id);
    if i1 >= 0 then st.(t1 := Without(st.t1, i1), t2 := [Hit(st.t1[i1])] + st.t2)
    else if i2 >= 0 then st.(t2 := [Hit(st.t2[i2])] + Without(st.t2, i2))
    else if j1 >= 0 then
      TotalSizeAtLeast(st.b1, st.entrySize);
      Replace(st.(target := TargetAfterB1Hit(st), b1 := Without(st.b1, j1))).(insert := AtT2)
    else if j2 >= 0 then
      TotalSizeAtLeast(st.b2, st.entrySize);
      Replace(st.(target := TargetAfterB2Hit(st), b2 := Without(st.b2, j2))).(insert := AtT2)
    else st.(insert := AtT1)
  }

  /** The block cache_lookup hands out: that of a resident entry, none for a ghost. */
  function LookupBlock<H>(st: State<H>, id: Id): Option<H> {
    var i1 := IndexOf(st.t1, id);
    var i2 := IndexOf(st.t2, id);
    if i1 >= 0 then st.t1[i1].block
    else if i2 >= 0 then st.t2[i2].block
    else None
  }

  function Held<H>(st: State<H>): int {
    TotalSize(st.t1) + TotalSize(st.t2) + TotalSize(st.b1) + TotalSize(st.b2)
  }

  /** The room cache_insert makes before a new id goes into T1. */
  function MakeRoom<H>(st: State<H>): State<H> {
    if TotalSize(st.t1) + TotalSize(st.b1) >= st.size then
      if TotalSize(st.t1) < st.size then Replace(st.(b1 := AfterEviction(st.b1)))
      else st.(t1 := AfterEviction(st.t1))
    else if Held(st) >= st.size then
      Replace(if Held(st) >= 2 * st.size then st.(b2 := AfterEviction(st.b2)) else st)
    else st
  }

  /** cache_insert, for a lookup that missed. */
  function Insert<H>(st: State<H>, item: Item<H>): State<H>
    requires st.insert != Unset
  {
    if st.insert == AtT1 then
      var room := MakeRoom(st);
      room.(t1 := [item] + room.t1)
    else st.(t2 := [item] + st.t2)
  }

  // -------------------------------------------------------------- invariant

  /** The ids of a list, with repetitions. */
  ghost function Ids<H>(s: seq<Item<H>>): multiset<Id> {
    if s == [] then multiset{} else multiset{s[0].id} + Ids(s[1..])
  }

  /** Every id the cache knows about, resident or ghost. */
  ghost function AllIds<H>(st: State<H>): multiset<Id> {
    Ids(st.t1) + Ids(st.b1) + Ids(st.t2) + Ids(st.b2)
  }

  ghost predicate Residents<H>(s: seq<Item<H>>, entrySize: int) {
    forall i :: 0 <= i < |s| ==> s[i].size >= entrySize && s[i].block.Some?
  }

  ghost predicate Ghosts<H>(s: seq<Item<H>>, entrySize: int) {
    forall i :: 0 <= i < |s| ==> s[i].size == entrySize && s[i].usage == 0
  }

  /** No id is in two places. */
  ghost predicate IdsUnique<H>(st: State<H>) {
    forall id :: AllIds(st)[id] <= 1
  }

  /** The invariant of the whole cache. */
  ghost predicate Consistent<H>(st: State<H>) {
    && 0 < st.entrySize && 0 < st.size
    && 0 <= st.target <= st.size
    && Residents(st.t1, st.entrySize) && Residents(st.t2, st.entrySize)
    && Ghosts(st.b1, st.entrySize) && Ghosts(st.b2, st.entrySize)
    && IdsUnique(st)
  }

  // ------------------------------------------------- ids through the operations

  lemma {:induction false} IdsConcat<H>(a: seq<Item<H>>, b: seq<Item<H>>)
    ensures Ids(a + b) == Ids(a) + Ids(b)
  {
    if a == [] {
      assert a + b == b;
    } else {
      assert (a + b)[1..] == a[1..] + b;
      IdsConcat(a[1..], b);
    }
  }

  lemma {:induction false} IdsMember<H>(s: seq<Item<H>>, id: Id)
    ensures id in Ids(s) <==> IndexOf(s, id) >= 0
  {
    if s != [] {
      IdsMember(s[1..], id);
    }
  }

  lemma Around<H>(a: seq<Item<H>>, x: Item<H>, b: seq<Item<H>>)
    ensures Ids(a + [x] + b) == Ids(a) + multiset{x.id} + Ids(b)
    ensures TotalSize(a + [x] + b) == TotalSize(a) + x.size + TotalSize(b)
  {
    IdsConcat(a + [x], b);
    IdsConcat(a, [x]);
    TotalSizeConcat(a + [x], b);
    TotalSizeConcat(a, [x]);
    assert [x][1..] == [];
    assert Ids([x]) == multiset{x.id};
  }

  /** Taking position k out of a list takes out its id and its bytes, whatever becomes of the order. */
  lemma SplitAt<H>(s: seq<Item<H>>, k: int)
    requires 0 <= k < |s|
    ensures Ids(s) == Ids(Without(s, k)) + multiset{s[k].id}
    ensures Ids(s) == Ids(s[k + 1..] + s[..k]) + multiset{s[k].id}
    ensures TotalSize(s) == TotalSize(Without(s, k)) + s[k].size
    ensures TotalSize(s) == TotalSize(s[k + 1..] + s[..k]) + s[k].size
  {
    hide Ids, TotalSize, IndexOf, LastUnpinned;
    var a, b := s[..k], s[k + 1..];
    assert s == a + [s[k]] + b;
    Around(a, s[k], b);
    IdsConcat(a, b);
    IdsConcat(b, a);
    TotalSizeConcat(a, b);
    TotalSizeConcat(b, a);
  }

  lemma Prepend<H>(x: Item<H>, s: seq<Item<H>>)
    ensures Ids([x] + s) == multiset{x.id} + Ids(s)
    ensures TotalSize([x] + s) == x.size + TotalSize(s)
  {
    assert ([x] + s)[1..] == s;
  }

  lemma MoveT1Ids<H>(st: State<H>)
    ensures AllIds(MoveT1(st)) == AllIds(st)
  {
    hide Ids, TotalSize, IndexOf, LastUnpinned;
    var k := LastUnpinned(st.t1);
    if k >= 0 {
      SplitAt(st.t1, k);
      Prepend(Trim(st.t1[k], st.entrySize), st.b1);
    }
  }

  lemma MoveT2Ids<H>(st: State<H>)
    ensures AllIds(MoveT2(st)) == AllIds(st)
  {
    hide Ids, TotalSize, IndexOf, LastUnpinned;
    var k := LastUnpinned(st.t2);
    if k >= 0 {
      SplitAt(st.t2, k);
      Prepend(Trim(st.t2[k], st.entrySize), st.b2);
    }
  }

  lemma EvictLength<H>(s: seq<Item<H>>)
    ensures AllPinned(s) <==> LastUnpinned(s) < 0
    ensures |AfterEviction(s)| == if AllPinned(s) then |s| else |s| - 1
    ensures AllPinned(s) ==> AfterEviction(s) == s
  {
  }

  /**
   * A replacement forgets no id: exactly one unpinned resident becomes a ghost, or none
   * does and then every resident is pinned.
   */
  lemma ReplaceMovesOne<H>(st: State<H>)
    ensures var r := Replace(st);
      && AllIds(r) == AllIds(st)
      && r.insert == st.insert && r.size == st.size && r.entrySize == st.entrySize && r.target == st.target
      && (if AllPinned(st.t1) && AllPinned(st.t2) then r == st
          else
            || (r.t2 == st.t2 && r.b2 == st.b2 && |r.t1| == |st.t1| - 1 && |r.b1| == |st.b1| + 1)
            || (r.t1 == st.t1 && r.b1 == st.b1 && |r.t2| == |st.t2| - 1 && |r.b2| == |st.b2| + 1))
  {
    hide Ids, TotalSize, LastUnpinned, AllIds, AfterEviction, AllPinned, Trim;
    MoveT1Ids(st);
    MoveT2Ids(st);
    EvictLength(st.t1);
    EvictLength(st.t2);
  }

  /** An eviction keeps what holds of every entry of a list. */
  lemma EvictionKeepsResidents<H>(s: seq<Item<H>>, entrySize: int)
    requires Residents(s, entrySize)
    ensures Residents(AfterEviction(s), entrySize)
  {
    hide LastUnpinned;
  }

  /** An unused resident, trimmed, is a ghost. */
  lemma TrimmedIsGhost<H>(s: seq<Item<H>>, k: int, ghosts: seq<Item<H>>, entrySize: int)
    requires Residents(s, entrySize) && Ghosts(ghosts, entrySize)
    requires 0 <= k < |s| && s[k].usage == 0
    ensures Ghosts([Trim(s[k], entrySize)] + ghosts, entrySize)
  {
  }

  lemma MoveT1Consistent<H>(st: State<H>)
    requires Consistent(st)
    ensures Consistent(MoveT1(st))
  {
    hide Ids, TotalSize, LastUnpinned, AllIds, AfterEviction, Residents, Ghosts, Trim;
    var k := LastUnpinned(st.t1);
    MoveT1Ids(st);
    if k >= 0 {
      EvictionKeepsResidents(st.t1, st.entrySize);
      TrimmedIsGhost(st.t1, k, st.b1, st.entrySize);
    }
  }

  lemma MoveT2Consistent<H>(st: State<H>)
    requires Consistent(st)
    ensures Consistent(MoveT2(st))
  {
    hide Ids, TotalSize, LastUnpinned, AllIds, AfterEviction, Residents, Ghosts, Trim;
    var k := LastUnpinned(st.t2);
    MoveT2Ids(st);
    if k >= 0 {
      EvictionKeepsResidents(st.t2, st.entrySize);
      TrimmedIsGhost(st.t2, k, st.b2, st.entrySize);
    }
  }

  lemma ReplaceConsistent<H>(st: State<H>)
    requires Consistent(st)
    ensures Consistent(Replace(st))
  {
    hide TotalSize, LastUnpinned, Consistent, MoveT1, MoveT2;
    MoveT1Consistent(st);
    MoveT2Consistent(st);
  }

  /** The state between taking a ghost off its list and the replacement that follows. */
  lemma DropGhost<H>(st: State<H>, k: int, target: int, inB1: bool)
    requires Consistent(st) && 0 <= target <= st.size
    requires 0 <= k < if inB1 then |st.b1| else |st.b2|
    ensures var mid := if inB1 then st.(target := target, b1 := Without(st.b1, k))
                       else st.(target := target, b2 := Without(st.b2, k));
      && Consistent(mid)
      && AllIds(mid) == AllIds(st) - multiset{if inB1 then st.b1[k].id else st.b2[k].id}
  {
    hide Ids, TotalSize, IndexOf, LastUnpinned;
    SplitAt(if inB1 then st.b1 else st.b2, k);
    var mid := if inB1 then st.(target := target, b1 := Without(st.b1, k))
               else st.(target := target, b2 := Without(st.b2, k));
    assert AllIds(mid) == AllIds(st) - multiset{if inB1 then st.b1[k].id else st.b2[k].id};
  }

  lemma ResidentIffKnown<H>(st: State<H>, id: Id)
    ensures Resident(st, id) <==> id in Ids(st.t1) + Ids(st.t2)
    ensures id in AllIds(st) <==> Resident(st, id) || IndexOf(st.b1, id) >= 0 || IndexOf(st.b2, id) >= 0
  {
    IdsMember(st.t1, id);
    IdsMember(st.t2, id);
    IdsMember(st.b1, id);
    IdsMember(st.b2, id);
  }

  /** The entries of other ids, in their order */
  function Others<H>(s: seq<Item<H>>, id: Id): seq<Item<H>> {
    if s == [] then []
    else if s[0].id == id then Others(s[1..], id)
    else [s[0]] + Others(s[1..], id)
  }

  lemma {:induction false} OthersOf<H>(s: seq<Item<H>>, id: Id)
    requires Ids(s)[id] <= 1
    ensures var k := IndexOf(s, id);
      Others(s, id) == if k >= 0 then Without(s, k) else s
  {
    if s != [] {
      OthersOf(s[1..], id);
      if s[0].id == id {
        IdsMember(s[1..], id);
      }
    }
  }

  /** A hit moves the entry to the front of T2, pins it once more and changes nothing else. */
  lemma HitMovesToFront<H>(st: State<H>, id: Id)
    requires Consistent(st) && Resident(st, id)
    ensures var r := Lookup(st, id);
      && r == st.(t1 := Others(st.t1, id), t2 := r.t2)
      && r.t2 != [] && r.t2[1..] == Others(st.t2, id)
      && (exists e :: e in st.t1 + st.t2 && e.id == id && r.t2[0] == e.(usage := e.usage + 1))
      && r.t2[0].block == LookupBlock(st, id) && r.t2[0].block.Some?
    ensures |Lookup(st, id).t1| + |Lookup(st, id).t2| == |st.t1| + |st.t2| && |Lookup(st, id).t1| <= |st.t1|
  {
    hide Ids, TotalSize, IndexOf, LastUnpinned, Replace;
    var i1, i2 := IndexOf(st.t1, id), IndexOf(st.t2, id);
    ResidentOnce(st, id);
    OthersOf(st.t1, id);
    OthersOf(st.t2, id);
    var e := if i1 >= 0 then st.t1[i1] else st.t2[i2];
    assert e in st.t1 + st.t2;
  }

  lemma ResidentOnce<H>(st: State<H>, id: Id)
    requires IdsUnique(st)
    ensures Ids(st.t1)[id] + Ids(st.t2)[id] <= 1
    ensures IndexOf(st.t1, id) < 0 || IndexOf(st.t2, id) < 0
  {
    hide Ids, IndexOf;
    assert AllIds(st)[id] <= 1;
    IdsMember(st.t1, id);
    IdsMember(st.t2, id);
  }

  lemma HitIds<H>(st: State<H>, id: Id)
    requires Consistent(st) && Resident(st, id)
    ensures AllIds(Lookup(st, id)) == AllIds(st)
  {
    hide Ids, TotalSize, IndexOf, LastUnpinned, Replace, Consistent;
    var i1 := IndexOf(st.t1, id);
    var i2 := IndexOf(st.t2, id);
    if i1 >= 0 {
      SplitAt(st.t1, i1);
      Prepend(Hit(st.t1[i1]), st.t2);
    } else {
      SplitAt(st.t2, i2);
      Prepend(Hit(st.t2[i2]), Without(st.t2, i2));
    }
  }

  lemma HitConsistent<H>(st: State<H>, id: Id)
    requires Consistent(st) && Resident(st, id)
    ensures Consistent(Lookup(st, id))
  {
    hide Ids, TotalSize, IndexOf, LastUnpinned, Replace, AllIds;
    HitIds(st, id);
  }

  /** A lookup that misses forgets the ghost of that id, if there was one, and no other id. */
  lemma MissIds<H>(st: State<H>, id: Id)
    requires Consistent(st) && !Resident(st, id)
    ensures var r := Lookup(st, id);
      && Consistent(r) && AllIds(r) == AllIds(st) - multiset{id} && id !in AllIds(r)
      && r.insert == (if id in AllIds(st) then AtT2 else AtT1)
      && r.size == st.size && r.entrySize == st.entrySize
  {
    hide Ids, TotalSize, IndexOf, LastUnpinned, Replace;
    var j1 := IndexOf(st.b1, id);
    var j2 := IndexOf(st.b2, id);
    ResidentIffKnown(st, id);
    if j1 >= 0 {
      TotalSizeAtLeast(st.b1, st.entrySize);
      DropGhost(st, j1, TargetAfterB1Hit(st), true);
      var mid := st.(target := TargetAfterB1Hit(st), b1 := Without(st.b1, j1));
      ReplaceMovesOne(mid);
      ReplaceConsistent(mid);
    } else if j2 >= 0 {
      TotalSizeAtLeast(st.b2, st.entrySize);
      DropGhost(st, j2, TargetAfterB2Hit(st), false);
      var mid := st.(target := TargetAfterB2Hit(st), b2 := Without(st.b2, j2));
      ReplaceMovesOne(mid);
      ReplaceConsistent(mid);
    }
    assert AllIds(st)[id] <= 1;
  }
}
