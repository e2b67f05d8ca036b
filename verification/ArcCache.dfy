/**
 * The cache of navit/cache.c over the heap: four entry lists and a hash table, each
 * operation proved against the value-level machine.
 */
module ArcCache {
  import opened Wrappers
  import opened ArcState
  import opened ArcRuns
  import opened ArcList

  /** A hash table finds exactly the listed entries, and perhaps one that is between lists. */
  ghost predicate Finds(hash: map<Id, Entry>, listed: set<Entry>, limbo: Entry?) {
    && (forall e :: e in listed ==> e.id in hash && hash[e.id] == e)
    && (forall id :: id in hash ==> hash[id].id == id && (hash[id] in listed || hash[id] == limbo))
    && (limbo != null ==> limbo !in listed && limbo.id in hash && hash[limbo.id] == limbo)
  }

  /** An entry may be replaced by a copy of its header. */
  lemma FindsCopy(hash: map<Id, Entry>, listed: set<Entry>, limbo: Entry?, e: Entry, r: Entry)
    requires Finds(hash, listed, limbo) && e in listed
    requires r.id == e.id && (r == e || (r !in listed && r != limbo))
    ensures Finds(hash[e.id := r], listed - {e} + {r}, limbo)
    ensures r == e ==> hash[e.id := r] == hash
    ensures hash[e.id := r].Keys == hash.Keys
  {
  }

  /** Dropping an entry, or the one between lists, from both list and table. */
  lemma FindsLess(hash: map<Id, Entry>, listed: set<Entry>, limbo: Entry?, e: Entry)
    requires Finds(hash, listed, limbo)
    requires (limbo == null && e in listed) || limbo == e
    ensures Finds(hash - {e.id}, listed - {e}, null)
    ensures limbo == e ==> listed - {e} == listed
  {
  }

  /** Taking an entry off its list leaves it between lists. */
  lemma FindsLimbo(hash: map<Id, Entry>, listed: set<Entry>, e: Entry)
    requires Finds(hash, listed, null) && e in listed
    ensures Finds(hash, listed - {e}, e)
  {
  }

  lemma FindsMore(hash: map<Id, Entry>, listed: set<Entry>, e: Entry)
    requires Finds(hash, listed, null) && e.id !in hash
    ensures Finds(hash[e.id := e], listed + {e}, null)
  {
  }

  class Cache {
    const t1: EntryList
    const b1: EntryList
    const t2: EntryList
    const b2: EntryList
    const size: int
    const entrySize: int
    var insert: EntryList?
    var t1Target: int
    var hash: map<Id, Entry>

    ghost function Abs(): State<Entry>
      reads this, t1, b1, t2, b2
    {
      State(t1.contents, b1.contents, t2.contents, b2.contents,
            if insert == null then Unset else if insert == t1 then AtT1 else AtT2, size, entrySize, t1Target)
    }

    /** The four lists are proper, distinct lists. */
    ghost predicate Shape()
      reads this, t1, t2, b1, b2, t1.repr, t2.repr, b1.repr, b2.repr
    {
      && t1 != b1 && t1 != t2 && t1 != b2 && b1 != t2 && b1 != b2 && t2 != b2
      && t1.Valid() && b1.Valid() && t2.Valid() && b2.Valid()
      && t1.repr !! b1.repr !! t2.repr !! b2.repr
      && (insert == null || insert == t1 || insert == t2)
    }

    ghost function Listed(): set<Entry>
      reads t1, t2, b1, b2
    {
      t1.repr + b1.repr + t2.repr + b2.repr
    }

    ghost predicate Indexed(limbo: Entry?)
      reads this, t1, t2, b1, b2
    {
      Finds(hash, Listed(), limbo)
    }

    ghost predicate Valid()
      reads this, t1, t2, b1, b2, t1.repr, t2.repr, b1.repr, b2.repr
    {
      Shape() && Indexed(null) && Consistent(Abs())
    }

    /** cache_new, with the header size worked out by the caller */
    constructor (entrySize: int, size: int)
      requires entrySize > 0 && size > 0
      ensures Valid() && Abs() == Empty(size, entrySize)
    {
      hide Consistent, EntryList.Valid;
      t1 := new EntryList();
      b1 := new EntryList();
      t2 := new EntryList();
      b2 := new EntryList();
      this.size, this.entrySize := size, entrySize;
      insert, t1Target, hash := null, 0, map[];
      new;
      EmptyConsistent<Entry>(size, entrySize);
    }

    /** cache_trim: a ghost keeps its header only, in a new place. */
    method Trimmed(e: Entry) returns (r: Entry)
      modifies `hash
      ensures r == e || fresh(r)
      ensures r.id == e.id && r.View() == Trim(old(e.View()), entrySize)
      ensures hash == if r == e then old(hash) else old(hash)[e.id := r]
    {
      if entrySize < e.size {
        r := new Entry(e.id, e.usage, entrySize, false);
        hash := hash[e.id := r];
      } else {
        r := e;
      }
    }

    /** cache_move: the entry that was evicted and the ghost that replaces it */
    method Move(from: EntryList, to: EntryList) returns (e: Entry?, r: Entry?)
      requires from != to && from.Valid() && to.Valid() && from.repr !! to.repr
      requires forall i :: 0 <= i < |from.contents| ==> from.contents[i].size > 0
      modifies `hash, from, to, from.repr, to.repr
      ensures from.Valid() && to.Valid()
      ensures from.contents == AfterEviction(old(from.contents))
      ensures var k := LastUnpinned(old(from.contents));
        if k < 0 then
          e == null && r == null && hash == old(hash) && from.repr == old(from.repr) && to.repr == old(to.repr) &&
          to.contents == old(to.contents)
        else
          e != null && r != null && r.id == e.id && (r == e || fresh(r)) &&
          hash == (if r == e then old(hash) else old(hash)[e.id := r]) &&
          e in old(from.repr) && from.repr == old(from.repr) - {e} && to.repr == old(to.repr) + {r} &&
          to.contents == [Trim(old(from.contents)[k], entrySize)] + old(to.contents)
    {
      hide TotalSize, Ids, LastUnpinned, EntryList.Valid, AfterEviction, Trim, Entry.View;
      e := from.RemoveLru();
      r := null;
      if e != null {
        r := Trimmed(e);
        to.InsertMru(r);
      }
    }

    /** cache_move between T1 and B1 */
    method MoveFromT1(ghost limbo: Entry?) returns (moved: bool)
      requires Shape() && Indexed(limbo)
      requires forall i :: 0 <= i < |t1.contents| ==> t1.contents[i].size > 0
      modifies `hash, t1, b1, t1.repr, b1.repr
      ensures Shape() && Indexed(limbo) && hash.Keys == old(hash.Keys)
      ensures Abs() == MoveT1(old(Abs())) && t1.repr <= old(t1.repr)
      ensures fresh(Listed() - old(Listed()))
      ensures moved <==> LastUnpinned(old(t1.contents)) >= 0
    {
      hide TotalSize, Ids, LastUnpinned, EntryList.Valid, Trim, Finds;
      var e, r := Move(t1, b1);
      moved := e != null;
      if moved {
        FindsCopy(old(hash), old(Listed()), limbo, e, r);
        assert Listed() == old(Listed()) - {e} + {r};
      }
    }

    /** cache_move between T2 and B2 */
    method MoveFromT2(ghost limbo: Entry?) returns (moved: bool)
      requires Shape() && Indexed(limbo)
      requires forall i :: 0 <= i < |t2.contents| ==> t2.contents[i].size > 0
      modifies `hash, t2, b2, t2.repr, b2.repr
      ensures Shape() && Indexed(limbo) && hash.Keys == old(hash.Keys)
      ensures Abs() == MoveT2(old(Abs())) && t2.repr <= old(t2.repr)
      ensures fresh(Listed() - old(Listed()))
      ensures moved <==> LastUnpinned(old(t2.contents)) >= 0
    {
      hide TotalSize, Ids, LastUnpinned, EntryList.Valid, Trim, Finds;
      var e, r := Move(t2, b2);
      moved := e != null;
      if moved {
        FindsCopy(old(hash), old(Listed()), limbo, e, r);
        assert Listed() == old(Listed()) - {e} + {r};
      }
    }

    /** cache_replace */
    method ReplaceOne(ghost limbo: Entry?)
      requires Shape() && Indexed(limbo)
      requires forall i :: 0 <= i < |t1.contents| ==> t1.contents[i].size > 0
      requires forall i :: 0 <= i < |t2.contents| ==> t2.contents[i].size > 0
      modifies `hash, t1, b1, t2, b2, t1.repr, b1.repr, t2.repr, b2.repr
      ensures Shape() && Indexed(limbo) && hash.Keys == old(hash.Keys)
      ensures Abs() == Replace(old(Abs())) && t1.repr <= old(t1.repr) && t2.repr <= old(t2.repr)
      ensures fresh(Listed() - old(Listed()))
    {
      hide Ids, LastUnpinned, EntryList.Linked, AfterEviction, Trim, Finds, TotalSize;
      if t1.size >= Max(1, t1Target) {
        var moved := MoveFromT1(limbo);
        if !moved {
          moved := MoveFromT2(limbo);
        }
      } else {
        var moved := MoveFromT2(limbo);
        if !moved {
          moved := MoveFromT1(limbo);
        }
      }
    }

    /** An id that the hash table knows is at one place of the one list its entry names. */
    lemma Located(list: EntryList, e: Entry) returns (k: int)
      requires list.Valid() && e in list.repr
      requires forall x :: x in list.repr ==> x.id in hash && hash[x.id] == x
      ensures e.where == list && 0 <= k < |list.nodes| == |list.contents|
      ensures list.nodes[k] == e && list.contents[k] == e.View() && IndexOf(list.contents, e.id) == k
    {
      hide TotalSize, Ids;
      k :| 0 <= k < |list.nodes| && list.nodes[k] == e;
      var j := IndexOf(list.contents, e.id);
      assert list.contents[k].id == e.id;
      assert 0 <= j <= k && list.nodes[j].View() == list.contents[j];
      assert list.nodes[j] in list.repr;
    }

    lemma NotLocated(list: EntryList, id: Id)
      requires list.Valid()
      requires forall x :: x in list.repr ==> x.id in hash && hash[x.id] == x
      requires id !in hash || hash[id] !in list.repr
      ensures IndexOf(list.contents, id) < 0
    {
      hide TotalSize, Ids;
      assert forall i :: 0 <= i < |list.nodes| ==>
        && list.nodes[i] in list.repr && list.contents[i].id == list.nodes[i].id
        && hash[list.nodes[i].id] == list.nodes[i];
    }

    /** Where the hash table says an id is, and where the lists have it. */
    lemma Places(id: Id)
      requires Shape() && Indexed(null)
      ensures IndexOf(t1.contents, id) >= 0 <==> id in hash && hash[id] in t1.repr
      ensures IndexOf(b1.contents, id) >= 0 <==> id in hash && hash[id] in b1.repr
      ensures IndexOf(t2.contents, id) >= 0 <==> id in hash && hash[id] in t2.repr
      ensures IndexOf(b2.contents, id) >= 0 <==> id in hash && hash[id] in b2.repr
      ensures id in hash ==> hash[id].id == id && hash[id] in Listed()
      ensures id in hash ==>
        (hash[id].where == t1 <==> hash[id] in t1.repr) && (hash[id].where == b1 <==> hash[id] in b1.repr) &&
        (hash[id].where == t2 <==> hash[id] in t2.repr) && (hash[id].where == b2 <==> hash[id] in b2.repr)
    {
      hide EntryList.Valid, IndexOf;
      PlaceIn(t1, id);
      PlaceIn(b1, id);
      PlaceIn(t2, id);
      PlaceIn(b2, id);
    }

    /** The table knows just the ids of the four lists, and each is listed once. */
    lemma TableIsLists(id: Id)
      requires Valid()
      ensures id in hash <==> id in AllIds(Abs())
      ensures AllIds(Abs())[id] <= 1
    {
      hide EntryList.Valid, IndexOf, Ids, TotalSize;
      Places(id);
      ResidentIffKnown(Abs(), id);
    }

    lemma PlaceIn(list: EntryList, id: Id)
      requires list.Valid()
      requires forall x :: x in list.repr ==> x.id in hash && hash[x.id] == x
      requires id in hash ==> hash[id].id == id
      ensures IndexOf(list.contents, id) >= 0 <==> id in hash && hash[id] in list.repr
      ensures id in hash && hash[id] in list.repr ==> hash[id].where == list
    {
      hide EntryList.Valid, IndexOf;
      if id in hash && hash[id] in list.repr {
        var k := Located(list, hash[id]);
      } else {
        NotLocated(list, id);
      }
    }

    /** The list work of a hit: off its list, to the front of T2, one more user. */
    method MoveToFront(list: EntryList, e: Entry, ghost k: int)
      requires Shape() && Indexed(null) && (list == t1 || list == t2)
      requires 0 <= k < |list.nodes| == |list.contents|
      requires list.nodes[k] == e && e in list.repr && list.contents[k] == e.View()
      modifies t1, t2, t1.repr, t2.repr
      ensures Shape() && Indexed(null) && Listed() == old(Listed())
      ensures Abs() == FrontOfT2(old(Abs()), list == t1, k)
    {
      hide EntryList.Valid, IndexOf, TotalSize, Ids, Consistent, Entry.View, Finds, Hit;
      list.Remove(e, k);
      t2.InsertMru(e);
      assert t2.contents[1..] == if list == t1 then old(t2.contents) else Without(old(t2.contents), k);
      t2.PinFirst();
      assert Listed() == old(Listed());
    }

    static ghost function FrontOfT2(st: State<Entry>, inT1: bool, k: int): State<Entry>
      requires 0 <= k < if inT1 then |st.t1| else |st.t2|
    {
      if inT1 then st.(t1 := Without(st.t1, k), t2 := [Hit(st.t1[k])] + st.t2)
      else st.(t2 := [Hit(st.t2[k])] + Without(st.t2, k))
    }

    /** cache_lookup on an id that is resident: the entry moves to the front of T2. */
    method Touch(e: Entry, id: Id)
      requires Valid() && id in hash && hash[id] == e && (e.where == t1 || e.where == t2)
      modifies t1, t2, t1.repr, t2.repr
      ensures Valid() && Abs() == ArcState.Lookup(old(Abs()), id) && hash == old(hash) && Listed() == old(Listed())
      ensures Resident(old(Abs()), id) && LookupBlock(old(Abs()), id) == Some(e)
    {
      hide EntryList.Valid, IndexOf, TotalSize, Ids, Consistent;
      Places(id);
      HitConsistent(Abs(), id);
      HitMovesToFront(Abs(), id);
      ghost var k := Located(if e.where == t1 then t1 else t2, e);
      MoveToFront(e.where, e, k);
    }

    /** Where a ghost is, and why its list has a size to divide by. */
    lemma GhostSpot(list: EntryList, e: Entry) returns (k: int)
      requires Valid() && e.id in hash && hash[e.id] == e && e in list.repr && (list == b1 || list == b2)
      ensures 0 <= k < |list.nodes| == |list.contents| && list.nodes[k] == e
      ensures !Resident(Abs(), e.id) && IndexOf(list.contents, e.id) == k
      ensures list == b2 ==> IndexOf(b1.contents, e.id) < 0
      ensures b1.size == TotalSize(b1.contents) && b2.size == TotalSize(b2.contents) && list.size > 0
    {
      Places(e.id);
      hide Consistent, IndexOf, TotalSize, Entry.View, EntryList.Linked, EntryList.Described;
      k := Located(list, e);
      b1.Ends();
      b2.Ends();
      GhostBytes(Abs(), e.id);
    }

    /** The part of cache_lookup before the replacement when the id is a ghost in B1. */
    method DropFromB1(e: Entry)
      requires Valid() && e.id in hash && hash[e.id] == e && e in b1.repr
      modifies `t1Target, b1, b1.repr
      ensures Shape() && Indexed(e) && insert == old(insert) && b1.repr <= old(b1.repr) && b2.repr <= old(b2.repr)
      ensures !Resident(old(Abs()), e.id) && IndexOf(old(b1.contents), e.id) >= 0
      ensures Abs() == GhostDropped(old(Abs()), e.id)
    {
      hide EntryList.Valid, IndexOf, TotalSize, Ids, Consistent, Resident, Entry.View, Finds;
      hide GhostDropped, Raised, Lowered;
      ghost var k := GhostSpot(b1, e);
      Dropped(Abs(), e.id);
      FindsLimbo(hash, Listed(), e);
      t1Target := Raised(t1Target, b1.size, b2.size, size);
      b1.Remove(e, k);
      assert Listed() == old(Listed()) - {e};
    }

    method DropFromB2(e: Entry)
      requires Valid() && e.id in hash && hash[e.id] == e && e in b2.repr
      modifies `t1Target, b2, b2.repr
      ensures Shape() && Indexed(e) && insert == old(insert) && b1.repr <= old(b1.repr) && b2.repr <= old(b2.repr)
      ensures !Resident(old(Abs()), e.id) && IndexOf(old(b1.contents), e.id) < 0 <= IndexOf(old(b2.contents), e.id)
      ensures Abs() == GhostDropped(old(Abs()), e.id)
    {
      hide EntryList.Valid, IndexOf, TotalSize, Ids, Consistent, Resident, Entry.View, Finds;
      hide GhostDropped, Raised, Lowered;
      ghost var k := GhostSpot(b2, e);
      Dropped(Abs(), e.id);
      FindsLimbo(hash, Listed(), e);
      t1Target := Lowered(t1Target, b1.size, b2.size);
      b2.Remove(e, k);
      assert Listed() == old(Listed()) - {e};
    }

    /** The first half of cache_lookup on a ghost. */
    method DropGhostEntry(e: Entry, id: Id)
      requires Valid() && id in hash && hash[id] == e && e.where != t1 && e.where != t2
      modifies `t1Target, b1, b2, b1.repr, b2.repr
      ensures Shape() && Indexed(e) && id == e.id && b1.repr <= old(b1.repr) && b2.repr <= old(b2.repr)
      ensures Consistent(old(Abs())) && !Resident(old(Abs()), id)
      ensures IndexOf(old(b1.contents), id) >= 0 || IndexOf(old(b2.contents), id) >= 0
      ensures Abs() == GhostDropped(old(Abs()), id)
    {
      Places(id);
      hide EntryList.Valid, IndexOf, TotalSize, Ids, Consistent, Resident, GhostDropped, Finds;
      if e.where == b1 {
        DropFromB1(e);
      } else {
        DropFromB2(e);
      }
    }

    /** The ghost leaves its list and a resident takes its place among the ghosts. */
    method SwapGhost(e: Entry, id: Id)
      requires Valid() && id in hash && hash[id] == e && e.where != t1 && e.where != t2
      modifies this, t1, b1, t2, b2, t1.repr, b1.repr, t2.repr, b2.repr
      ensures Shape() && Indexed(e) && id == e.id && fresh(Listed() - old(Listed()))
      ensures !Resident(old(Abs()), id) && Consistent(ArcState.Lookup(old(Abs()), id))
      ensures Abs().(insert := AtT2) == ArcState.Lookup(old(Abs()), id)
    {
      hide EntryList.Valid, IndexOf, TotalSize, Ids, Replace, GhostDropped;
      hide Consistent, Finds, Resident, ArcState.Lookup;
      ghost var before := Abs();
      DropGhostEntry(e, id);
      GhostLookup(before, id);
      ReplaceOne(e);
    }

    /** cache_lookup on a ghost */
    method LookupGhostEntry(e: Entry, id: Id)
      requires Valid() && id in hash && hash[id] == e && e.where != t1 && e.where != t2
      modifies this, t1, b1, t2, b2, t1.repr, b1.repr, t2.repr, b2.repr
      ensures Valid() && !Resident(old(Abs()), id) && Abs() == ArcState.Lookup(old(Abs()), id)
      ensures id !in hash && insert == t2 && fresh(Listed() - old(Listed()))
    {
      hide EntryList.Valid, IndexOf, TotalSize, Ids, Consistent, Finds, Resident, ArcState.Lookup;
      SwapGhost(e, id);
      FindsLess(hash, Listed(), e, e);
      hash := hash - {id};
      insert := t2;
    }

    /** cache_lookup: the entry whose data block is handed out, or NULL for a miss */
    method Lookup(id: Id) returns (e: Entry?)
      requires Valid()
      modifies this, t1, b1, t2, b2, t1.repr, b1.repr, t2.repr, b2.repr
      ensures Valid() && Abs() == ArcState.Lookup(old(Abs()), id)
      ensures e != null <==> Resident(old(Abs()), id)
      ensures e != null ==> LookupBlock(old(Abs()), id) == Some(e)
      ensures e == null ==> id !in hash && insert != null
      ensures fresh(Listed() - old(Listed()))
    {
      hide EntryList.Valid, IndexOf, TotalSize, Ids, Consistent, ArcState.Lookup, LookupBlock, Finds;
      Places(id);
      ghost var before := Abs();
      if id !in hash {
        Unknown(before, id);
        insert := t1;
        return null;
      }
      e := hash[id];
      if e.where == t1 || e.where == t2 {
        Touch(e, id);
      } else {
        LookupGhostEntry(e, id);
        e := null;
      }
    }

    /** cache_remove_lru with a cache: the victim is dropped from the table as well. */
    method Evict(list: EntryList)
      requires Shape() && Indexed(null) && (list == t1 || list == b1 || list == b2)
      requires forall i :: 0 <= i < |list.contents| ==> list.contents[i].size > 0
      modifies `hash, list, list.repr
      ensures Shape() && Indexed(null) && hash.Keys <= old(hash.Keys)
      ensures var place := if list == t1 then PlaceT1 else if list == b1 then PlaceB1 else PlaceB2;
        Abs() == ArcRuns.Evict(old(Abs()), place)
      ensures list.repr <= old(list.repr)
    {
      hide EntryList.Valid, LastUnpinned, Entry.View, Finds, AfterEviction;
      var e := list.RemoveLru();
      if e != null {
        FindsLess(hash, old(Listed()), null, e);
        hash := hash - {e.id};
        assert Listed() == old(Listed()) - {e};
      }
    }

    /** The room cache_insert makes in front of an insertion into T1. */
    method MakeRoomFor(ghost id: Id)
      requires Valid() && id !in hash
      modifies `hash, t1, b1, t2, b2, t1.repr, b1.repr, t2.repr, b2.repr
      ensures Shape() && Indexed(null) && id !in hash
      ensures Abs() == MakeRoom(old(Abs())) && t1.repr <= old(t1.repr) && t2.repr <= old(t2.repr)
    {
      hide EntryList.Valid, TotalSize, Ids, Consistent, Finds, Replace, AfterEviction;
      Sizes();
      if t1.size + b1.size >= size {
        if t1.size < size {
          Evict(b1);
          ReplaceOne(null);
        } else {
          Evict(t1);
        }
      } else if t1.size + t2.size + b1.size + b2.size >= size {
        if t1.size + t2.size + b1.size + b2.size >= 2 * size {
          Evict(b2);
        }
        ReplaceOne(null);
      }
    }

    lemma Sizes()
      requires Valid()
      ensures t1.size == TotalSize(t1.contents) && b1.size == TotalSize(b1.contents)
      ensures t2.size == TotalSize(t2.contents) && b2.size == TotalSize(b2.contents)
      ensures forall i :: 0 <= i < |t1.contents| ==> t1.contents[i].size > 0
      ensures forall i :: 0 <= i < |t2.contents| ==> t2.contents[i].size > 0
      ensures forall i :: 0 <= i < |b1.contents| ==> b1.contents[i].size > 0
      ensures forall i :: 0 <= i < |b2.contents| ==> b2.contents[i].size > 0
    {
      hide TotalSize, EntryList.Linked, IdsUnique, Finds;
    }

    lemma NotKnown(id: Id)
      requires Valid() && id !in hash
      ensures id !in AllIds(Abs())
    {
      hide EntryList.Valid, IndexOf, Consistent, AllIds, Finds;
      Places(id);
      ResidentIffKnown(Abs(), id);
    }

    /** The insertion itself, at the front of the list chosen by the last lookup. */
    method AddFirst(e: Entry)
      requires Shape() && Indexed(null) && insert != null && e.id !in hash && e !in Listed()
      modifies `hash, t1, t2, t1.repr, t2.repr, e`prev, e`next, e`where
      ensures Shape() && Indexed(null) && hash == old(hash)[e.id := e]
      ensures Abs() == AddedFirst(old(Abs()), old(e.View()))
    {
      hide EntryList.Valid, Finds, Entry.View;
      FindsMore(hash, Listed(), e);
      insert.InsertMru(e);
      hash := hash[e.id := e];
      assert Listed() == old(Listed()) + {e};
    }

    static ghost function AddedFirst(st: State<Entry>, x: Item<Entry>): State<Entry> {
      if st.insert == AtT1 then st.(t1 := [x] + st.t1) else st.(t2 := [x] + st.t2)
    }

    /** cache_insert, for the id that the last lookup missed */
    method Insert(e: Entry)
      requires Valid() && insert != null && e.id !in hash && e !in Listed()
      requires e.size >= entrySize && e.holdsData
      modifies `hash, t1, b1, t2, b2, t1.repr, b1.repr, t2.repr, b2.repr, e`prev, e`next, e`where
      ensures Valid() && Abs() == ArcState.Insert(old(Abs()), old(e.View()))
      ensures e.id in hash && hash[e.id] == e
    {
      hide EntryList.Valid, Ids, Consistent, MakeRoom, Finds, AllIds, Entry.View;
      NotKnown(e.id);
      InsertedConsistent(Abs(), e);
      if insert == t1 {
        MakeRoomFor(e.id);
        ListedKnown(e);
      }
      AddFirst(e);
    }

    /** cache_entry_new: a pinned entry with room for `dataSize` bytes of data */
    method NewEntry(id: Id, dataSize: nat) returns (e: Entry)
      requires Valid()
      ensures fresh(e) && e.View() == NewItem(Abs(), id, dataSize, e)
    {
      hide EntryList.Valid, Finds, IdsUnique;
      e := new Entry(id, 1, dataSize + entrySize, true);
    }

    /** The use of the cache in file_data_read: look up, and on a miss insert a new entry. */
    method Access(id: Id, dataSize: nat) returns (e: Entry, hit: bool)
      requires Valid()
      modifies this, t1, b1, t2, b2, t1.repr, b1.repr, t2.repr, b2.repr
      ensures Valid() && Abs() == ArcRuns.Access(old(Abs()), id, dataSize, e)
      ensures hit <==> Resident(old(Abs()), id)
      ensures hit ==> LookupBlock(old(Abs()), id) == Some(e)
      ensures !hit ==> fresh(e)
    {
      hide EntryList.Valid, Ids, Consistent, Finds, IndexOf, ArcState.Lookup, ArcState.Insert, LookupBlock, Resident;
      var found := Lookup(id);
      hit := found != null;
      if hit {
        e := found;
      } else {
        e := NewEntry(id, dataSize);
        Insert(e);
      }
    }

    /** cache_flush: the id is dropped wherever it is. */
    method Flush(id: Id)
      requires Valid()
      modifies `hash, t1, b1, t2, b2, t1.repr, b1.repr, t2.repr, b2.repr
      ensures Valid() && Abs() == ArcRuns.Flush(old(Abs()), id)
      ensures hash == old(hash) - {id}
    {
      hide EntryList.Valid, Ids, Consistent, IndexOf, Finds;
      FlushConsistent(Abs(), id);
      Places(id);
      if id in hash {
        var e := hash[id];
        RemoveEntry(e, e.where);
      }
    }

    /** cache_flush on an entry, or cache_flush_data */
    method RemoveEntry(e: Entry, list: EntryList)
      requires Shape() && Indexed(null) && e.id in hash && hash[e.id] == e
      requires list == t1 || list == b1 || list == t2 || list == b2
      requires e in list.repr
      modifies `hash, list, list.repr
      ensures Shape() && Indexed(null) && hash == old(hash) - {e.id}
      ensures Abs() == ArcRuns.Flush(old(Abs()), e.id)
    {
      hide EntryList.Valid, Ids, Consistent, IndexOf;
      Places(e.id);
      ghost var k := Located(list, e);
      Unlist(e, list, k);
    }

    method Unlist(e: Entry, list: EntryList, ghost k: int)
      requires Shape() && Indexed(null)
      requires list == t1 || list == b1 || list == t2 || list == b2
      requires e in list.repr && 0 <= k < |list.nodes| == |list.contents| && list.nodes[k] == e
      modifies `hash, list, list.repr
      ensures Shape() && Indexed(null) && hash == old(hash) - {e.id}
      ensures Abs() == (if list == t1 then old(Abs()).(t1 := Without(old(t1.contents), k))
                        else if list == b1 then old(Abs()).(b1 := Without(old(b1.contents), k))
                        else if list == t2 then old(Abs()).(t2 := Without(old(t2.contents), k))
                        else old(Abs()).(b2 := Without(old(b2.contents), k)))
    {
      hide EntryList.Valid, Finds, Entry.View;
      FindsLess(hash, Listed(), null, e);
      list.Remove(e, k);
      hash := hash - {e.id};
      assert Listed() == old(Listed()) - {e};
    }

    /** cache_entry_destroy: the client gives a block back. */
    method Release(e: Entry)
      requires Valid() && e.id in hash && hash[e.id] == e && (e.where == t1 || e.where == t2)
      modifies e, t1, t2
      ensures Valid() && Abs() == ArcRuns.Release(old(Abs()), e.id) && hash == old(hash)
    {
      hide EntryList.Valid, Ids, Consistent, IndexOf;
      ReleaseConsistent(Abs(), e.id);
      Places(e.id);
      ghost var k := Located(if e.where == t1 then t1 else t2, e);
      e.where.Unpin(e, k);
    }

    lemma ListedKnown(e: Entry)
      requires Indexed(null) && e.id !in hash
      ensures e !in Listed()
    {
    }
  }

  lemma InsertedConsistent(st: State<Entry>, e: Entry)
    requires Consistent(st) && st.insert != Unset
    requires e.id !in AllIds(st) && e.size >= st.entrySize && e.holdsData
    ensures Consistent(ArcState.Insert(st, e.View()))
  {
    hide Consistent, AllIds, ArcState.Insert;
    InsertConsistent(st, e.View());
  }

  lemma Unknown(st: State<Entry>, id: Id)
    requires Consistent(st)
    requires IndexOf(st.t1, id) < 0 && IndexOf(st.b1, id) < 0 && IndexOf(st.t2, id) < 0 && IndexOf(st.b2, id) < 0
    ensures !Resident(st, id) && ArcState.Lookup(st, id) == st.(insert := AtT1) && Consistent(st.(insert := AtT1))
  {
    hide IndexOf, Ids;
    assert AllIds(st.(insert := AtT1)) == AllIds(st);
  }

  lemma Dropped(st: State<Entry>, id: Id)
    requires Consistent(st) && !Resident(st, id)
    requires IndexOf(st.b1, id) >= 0 || IndexOf(st.b2, id) >= 0
    ensures IndexOf(st.b1, id) >= 0 ==>
      TotalSize(st.b1) > 0 &&
      GhostDropped(st, id) == st.(target := TargetAfterB1Hit(st), b1 := Without(st.b1, IndexOf(st.b1, id)))
    ensures IndexOf(st.b1, id) < 0 ==>
      TotalSize(st.b2) > 0 &&
      GhostDropped(st, id) == st.(target := TargetAfterB2Hit(st), b2 := Without(st.b2, IndexOf(st.b2, id)))
  {
    hide TotalSize, IdsUnique, IndexOf;
    GhostBytes(st, id);
  }

  lemma GhostLookup(st: State<Entry>, id: Id)
    requires Consistent(st) && !Resident(st, id)
    requires IndexOf(st.b1, id) >= 0 || IndexOf(st.b2, id) >= 0
    ensures ArcState.Lookup(st, id) == Replace(GhostDropped(st, id)).(insert := AtT2)
    ensures Consistent(ArcState.Lookup(st, id))
    ensures forall i :: 0 <= i < |GhostDropped(st, id).t1| ==> GhostDropped(st, id).t1[i].size > 0
    ensures forall i :: 0 <= i < |GhostDropped(st, id).t2| ==> GhostDropped(st, id).t2[i].size > 0
  {
    hide IndexOf, GhostDropped, Replace, ArcState.Lookup, IdsUnique;
    LookupGhost(st, id);
    MissIds(st, id);
  }
}
