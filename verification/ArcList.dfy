/**
 * The doubly linked entry lists of navit/cache.c over the heap, proved against sequences.
 */
module ArcList {
  import opened Wrappers
  import opened ArcState

  class Entry {
    const id: Id
    var usage: int
    var size: int
    var where: EntryList?
    var next: Entry?
    var prev: Entry?
    ghost var holdsData: bool  // false once the data behind the header has been cut off

    constructor (id: Id, usage: int, size: int, holdsData: bool)
      ensures this.id == id && this.usage == usage && this.size == size && this.holdsData == holdsData
    {
      this.id, this.usage, this.size, this.holdsData := id, usage, size, holdsData;
      where, next, prev := null, null, null;
    }

    ghost function View(): Item<Entry>
      reads this
    {
      Item(id, usage, size, if holdsData then Some(this) else None)
    }
  }

  ghost predicate NoRepeats(nodes: seq<Entry>) {
    forall i, j :: 0 <= i < j < |nodes| ==> nodes[i] != nodes[j]
  }

  ghost function Elements(nodes: seq<Entry>): set<Entry> {
    set e | e in nodes
  }

  lemma PrependElements(e: Entry, nodes: seq<Entry>)
    ensures Elements([e] + nodes) == Elements(nodes) + {e}
    ensures NoRepeats(nodes) && e !in Elements(nodes) ==> NoRepeats([e] + nodes)
  {
  }

  lemma WithoutElements(nodes: seq<Entry>, k: int)
    requires NoRepeats(nodes) && 0 <= k < |nodes|
    ensures Elements(Without(nodes, k)) == Elements(nodes) - {nodes[k]}
    ensures NoRepeats(Without(nodes, k)) && nodes[k] in Elements(nodes)
  {
    var w := Without(nodes, k);
    forall e | e in nodes && e != nodes[k]
      ensures e in w
    {
      var i :| 0 <= i < |nodes| && nodes[i] == e;
      assert w[if i < k then i else i - 1] == e;
    }
  }

  lemma WithoutAt(nodes: seq<Entry>, k: int)
    requires 0 <= k < |nodes|
    ensures |Without(nodes, k)| == |nodes| - 1
    ensures forall i :: 0 <= i < |nodes| - 1 ==> Without(nodes, k)[i] == nodes[if i < k then i else i + 1]
  {
  }

  /** The sequence whose part from position m on has been brought to the front. */
  ghost function Rotated<T>(s: seq<T>, m: int): seq<T>
    requires 0 <= m <= |s|
  {
    s[m..] + s[..m]
  }

  ghost predicate PinnedFrom(s: seq<Item<Entry>>, m: int)
    requires 0 <= m
  {
    forall i :: m <= i < |s| ==> s[i].usage != 0
  }

  lemma RotatedOneMore<T>(s: seq<T>, m: int)
    requires 0 < m <= |s|
    ensures var r := Rotated(s, m); r[|r| - 1] == s[m - 1] && [s[m - 1]] + r[..|r| - 1] == Rotated(s, m - 1)
  {
  }

  lemma RotatedBytes(s: seq<Item<Entry>>, m: int)
    requires 0 <= m <= |s|
    ensures TotalSize(Rotated(s, m)) == TotalSize(s)
    ensures m > 0 ==> TotalSize(s[m - 1..]) == s[m - 1].size + TotalSize(s[m..])
  {
    assert s == s[..m] + s[m..];
    TotalSizeConcat(s[..m], s[m..]);
    TotalSizeConcat(s[m..], s[..m]);
    if m > 0 {
      assert s[m - 1..] == [s[m - 1]] + s[m..];
      Prepend(s[m - 1], s[m..]);
    }
  }

  /** One round of the rotation, on sequences. */
  lemma RotateStep(all: seq<Entry>, items: seq<Item<Entry>>, m: int)
    requires 0 <= m <= |all| == |items| && PinnedFrom(items, m)
    requires TotalSize(items[m..]) < TotalSize(items)
    ensures m > 0 && TotalSize(Rotated(items, m - 1)) == TotalSize(items)
    ensures |Rotated(all, m)| == |all| && |Rotated(items, m)| == |all|
    ensures [Rotated(all, m)[|all| - 1]] + Rotated(all, m)[..|all| - 1] == Rotated(all, m - 1)
    ensures [Rotated(items, m)[|all| - 1]] + Rotated(items, m)[..|all| - 1] == Rotated(items, m - 1)
    ensures TotalSize(items[m - 1..]) == Rotated(items, m)[|all| - 1].size + TotalSize(items[m..])
    ensures Rotated(items, m)[|all| - 1].usage != 0 ==> PinnedFrom(items, m - 1)
  {
    hide TotalSize;
    assert items[0..] == items;
    RotatedOneMore(all, m);
    RotatedOneMore(items, m);
    RotatedBytes(items, m);
    RotatedBytes(items, m - 1);
  }

  lemma NoBytes(s: seq<Item<Entry>>)
    ensures s == [] ==> TotalSize(s) == 0
  {
  }

  /** How far the rotation of a list can have gone: all the way exactly when every entry is pinned. */
  lemma Rotation(s: seq<Item<Entry>>, m: int)
    requires 0 <= m <= |s|
    requires forall i :: 0 <= i < |s| ==> s[i].size > 0
    requires PinnedFrom(s, m)
    ensures TotalSize(s[m..]) >= TotalSize(s) <==> m == 0
    ensures m == 0 ==> LastUnpinned(s) < 0
    ensures m > 0 && s[m - 1].usage == 0 ==> LastUnpinned(s) == m - 1
    ensures Rotated(s, m) == [] <==> s == []
  {
    assert s == s[..m] + s[m..];
    TotalSizeConcat(s[..m], s[m..]);
    TotalSizeAtLeast(s[..m], 1);
    NoBytes(s[..m]);
    assert m == 0 ==> s[..m] == [] && s[m..] == s;
  }

  class EntryList {
    var first: Entry?
    var last: Entry?
    var size: int
    ghost var nodes: seq<Entry>           // from `first` to `last`
    ghost var repr: set<Entry>            // the same entries as a set
    ghost var contents: seq<Item<Entry>>  // what the entries hold

    /** Links, back links and `where` all describe `nodes`. */
    ghost predicate Linked()
      reads `first, `last, `nodes, `repr, repr`prev, repr`next, repr`where
    {
      && NoRepeats(nodes) && repr == Elements(nodes)
      && first == (if nodes == [] then null else nodes[0])
      && last == (if nodes == [] then null else nodes[|nodes| - 1])
      && (forall i {:trigger nodes[i]} :: 0 <= i < |nodes| ==> nodes[i] in repr)
      && (forall i {:trigger nodes[i].where} :: 0 <= i < |nodes| ==> nodes[i].where == this)
      && (forall i {:trigger nodes[i].prev} :: 0 <= i < |nodes| ==>
            nodes[i].prev == if i == 0 then null else nodes[i - 1])
      && (forall i {:trigger nodes[i].next} :: 0 <= i < |nodes| ==>
            nodes[i].next == if i == |nodes| - 1 then null else nodes[i + 1])
    }

    /** `contents` and `size` are what the entries say. */
    ghost predicate Described()
      reads this, repr
    {
      && |contents| == |nodes|
      && (forall i :: 0 <= i < |nodes| ==> nodes[i] in repr && nodes[i].View() == contents[i])
      && size == TotalSize(contents)
    }

    ghost predicate Valid()
      reads this, repr
    {
      Linked() && Described()
    }

    constructor ()
      ensures Valid() && nodes == [] && contents == [] && repr == {}
    {
      first, last, size, nodes, contents, repr := null, null, 0, [], [], {};
    }

    lemma AllIn()
      requires Linked()
      ensures forall i :: 0 <= i < |nodes| ==> nodes[i] in repr
    {
    }

    lemma Ends()
      requires Valid()
      ensures |contents| == |nodes| && repr == Elements(nodes) && NoRepeats(nodes) && size == TotalSize(contents)
      ensures first == (if nodes == [] then null else nodes[0])
      ensures last == (if nodes == [] then null else nodes[|nodes| - 1])
      ensures nodes != [] ==> last in repr && last.View() == contents[|nodes| - 1]
    {
    }

    /** The pointer writes of cache_insert_mru. */
    method LinkFirst(e: Entry)
      requires Linked() && e !in repr
      modifies `first, `last, `nodes, `repr, e`prev, e`next, e`where, repr`prev
      ensures Linked() && nodes == [e] + old(nodes) && repr == old(repr) + {e}
    {
      hide Elements;
      ghost var before := nodes;
      assert before != [] ==> first == before[0];
      e.prev := null;
      e.next := first;
      e.where := this;
      if e.next != null {
        e.next.prev := e;
      }
      first := e;
      if last == null {
        last := e;
      }
      nodes, repr := [e] + nodes, repr + {e};
      PrependElements(e, before);
      assert forall i :: 0 < i < |nodes| ==> nodes[i] == before[i - 1];
      forall i | 0 <= i < |nodes|
        ensures nodes[i].prev == if i == 0 then null else nodes[i - 1]
      {
        assert i > 1 ==> before[i - 1].prev == before[i - 2];
      }
      forall i | 0 <= i < |nodes|
        ensures nodes[i].next == if i == |nodes| - 1 then null else nodes[i + 1]
      {
        assert i > 0 ==> before[i - 1].next == if i == |before| then null else before[i];
      }
    }

    /** cache_insert_mru */
    method InsertMru(e: Entry)
      requires Valid() && e !in repr
      modifies this, e`prev, e`next, e`where, repr`prev
      ensures Valid() && nodes == [e] + old(nodes) && repr == old(repr) + {e}
      ensures contents == [old(e.View())] + old(contents)
    {
      hide TotalSize, Ids, Linked;
      LinkFirst(e);
      size := size + e.size;
      Prepend(e.View(), contents);
      contents := [e.View()] + contents;
    }

    /** The pointer writes of cache_remove_from_list. */
    method Unlink(e: Entry, ghost k: int)
      requires Linked() && 0 <= k < |nodes| && nodes[k] == e
      modifies `first, `last, `nodes, `repr, repr`prev, repr`next
      ensures Linked() && nodes == Without(old(nodes), k) && repr == old(repr) - {e}
    {
      hide Without, NoRepeats;
      WithoutElements(nodes, k);
      WithoutAt(nodes, k);
      BypassNext(e, k);
      BypassPrev(e, k);
      nodes, repr := Without(nodes, k), repr - {e};
    }

    /** Going forward, the entry is left out. */
    method BypassNext(e: Entry, ghost k: int)
      requires Linked() && 0 <= k < |nodes| && nodes[k] == e
      modifies `first, repr`next
      ensures e.next == old(e.next)
      ensures var s := Without(nodes, k);
        && first == (if s == [] then null else s[0])
        && forall i {:trigger s[i].next} :: 0 <= i < |s| ==> s[i].next == if i == |s| - 1 then null else s[i + 1]
    {
      assert e.prev == if k == 0 then null else nodes[k - 1];
      assert e.next == if k == |nodes| - 1 then null else nodes[k + 1];
      if e.prev != null {
        e.prev.next := e.next;
      } else {
        first := e.next;
      }
      assert forall j {:trigger nodes[j].next} :: 0 <= j < |nodes| && j != k - 1 ==>
          nodes[j].next == old(nodes[j].next);
    }

    /** Going backward, the entry is left out. */
    method BypassPrev(e: Entry, ghost k: int)
      requires NoRepeats(nodes) && repr == Elements(nodes) && 0 <= k < |nodes| && nodes[k] == e
      requires forall i {:trigger nodes[i]} :: 0 <= i < |nodes| ==> nodes[i] in repr
      requires e.next == if k == |nodes| - 1 then null else nodes[k + 1]
      requires last == nodes[|nodes| - 1]
      requires forall i {:trigger nodes[i].prev} :: 0 <= i < |nodes| ==>
          nodes[i].prev == if i == 0 then null else nodes[i - 1]
      modifies `last, repr`prev
      ensures var s := Without(nodes, k);
        && last == (if s == [] then null else s[|s| - 1])
        && forall i {:trigger s[i].prev} :: 0 <= i < |s| ==> s[i].prev == if i == 0 then null else s[i - 1]
    {
      assert e.prev == if k == 0 then null else nodes[k - 1];
      if e.next != null {
        e.next.prev := e.prev;
      } else {
        last := e.prev;
      }
      assert forall j {:trigger nodes[j].prev} :: 0 <= j < |nodes| && j != k + 1 ==>
          nodes[j].prev == old(nodes[j].prev);
    }

    /** cache_remove_from_list */
    method Remove(e: Entry, ghost k: int)
      requires Valid() && 0 <= k < |nodes| && nodes[k] == e
      modifies this, repr`prev, repr`next
      ensures Valid() && nodes == Without(old(nodes), k) && repr == old(repr) - {e}
      ensures |contents| == |nodes| && k < |old(contents)| && contents == Without(old(contents), k)
      ensures e.View() == old(e.View())
    {
      hide TotalSize, Ids, Linked;
      Unlink(e, k);
      AllIn();
      size := size - e.size;
      SplitAt(contents, k);
      contents := Without(contents, k);
    }

    /** The pointer writes of cache_remove_lru_helper. */
    method UnlinkLast() returns (e: Entry)
      requires Linked() && nodes != []
      modifies `first, `last, `nodes, `repr, repr`next
      ensures Linked() && e == old(nodes[|nodes| - 1]) && nodes == old(nodes[..|nodes| - 1]) && repr == old(repr) - {e}
    {
      ghost var before := nodes;
      e := last;
      assert nodes[|nodes| - 1].prev == if |nodes| == 1 then null else nodes[|nodes| - 2];
      last := e.prev;
      if e.prev != null {
        e.prev.next := null;
      } else {
        first := null;
      }
      WithoutElements(before, |before| - 1);
      nodes, repr := nodes[..|nodes| - 1], repr - {e};
      assert nodes == Without(before, |before| - 1);
    }

    /** cache_remove_lru_helper, for a list that is not empty */
    method RemoveLast() returns (e: Entry)
      requires Valid() && nodes != []
      modifies this, repr`next
      ensures Valid() && e == old(nodes[|nodes| - 1]) && nodes == old(nodes[..|nodes| - 1]) && repr == old(repr) - {e}
      ensures |contents| == |nodes| < |old(contents)| && contents == old(contents)[..|nodes|]
      ensures e.View() == old(contents)[|nodes|]
    {
      hide TotalSize, Ids, Linked;
      ghost var n := |nodes| - 1;
      e := UnlinkLast();
      size := size - e.size;
      SplitAt(contents, n);
      assert Without(contents, n) == contents[..n];
      contents := contents[..n];
    }

    /**
     * The loop of cache_remove_lru: pinned entries at the end move to the front until an
     * unpinned one turns up or every byte has been `seen`.  Positions from `m` on have moved.
     */
    method Rotate() returns (seen: int, ghost m: int)
      requires Valid()
      modifies this, repr
      ensures Valid() && repr == old(repr) && 0 <= m <= |old(nodes)| == |old(contents)|
      ensures nodes == Rotated(old(nodes), m) && contents == Rotated(old(contents), m)
      ensures PinnedFrom(old(contents), m)
      ensures seen == TotalSize(old(contents)[m..]) && size == TotalSize(old(contents))
      ensures last == null || last.usage == 0 || seen >= size
    {
      hide TotalSize, Ids, Linked, Described, Rotated, PinnedFrom;
      ghost var all, items := nodes, contents;
      m := |all|;
      seen := 0;
      Ends();
      NothingRotated(all, items);
      while last != null && last.usage != 0 && seen < size
        invariant 0 <= m <= |all| == |items|
        invariant Valid() && repr == old(repr)
        invariant nodes == Rotated(all, m) && contents == Rotated(items, m)
        invariant PinnedFrom(items, m)
        invariant seen == TotalSize(items[m..]) && size == TotalSize(items)
        decreases m
      {
        var bytes;
        bytes, m := RotateOne(all, items, m);
        seen := seen + bytes;
      }
    }

    /** One round of that loop; returns the size of the entry that moved. */
    method RotateOne(ghost all: seq<Entry>, ghost items: seq<Item<Entry>>, ghost m: int)
      returns (bytes: int, ghost m': int)
      requires 0 <= m <= |all| == |items| && Valid() && last != null && last.usage != 0
      requires nodes == Rotated(all, m) && contents == Rotated(items, m)
      requires TotalSize(items[m..]) < size == TotalSize(items)
      requires PinnedFrom(items, m)
      modifies this, repr
      ensures m' == m - 1 >= 0 && Valid() && repr == old(repr) && size == TotalSize(items)
      ensures nodes == Rotated(all, m') && contents == Rotated(items, m')
      ensures PinnedFrom(items, m') && TotalSize(items[m'..]) == TotalSize(items[m..]) + bytes
    {
      hide TotalSize, Ids, Linked, Described, Rotated, PinnedFrom;
      Ends();
      m' := m - 1;
      RotateStep(all, items, m);
      var e := RemoveLast();
      bytes := e.size;
      InsertMru(e);
      Ends();
    }

    /** cache_remove_lru without a cache: takes out the least recently used unpinned entry. */
    method RemoveLru() returns (r: Entry?)
      requires Valid()
      requires forall i :: 0 <= i < |contents| ==> contents[i].size > 0
      modifies this, repr
      ensures Valid() && contents == AfterEviction(old(contents))
      ensures var k := LastUnpinned(old(contents));
        if k < 0 then r == null && repr == old(repr)
        else r != null && r in old(repr) && repr == old(repr) - {r} && r.View() == old(contents)[k]
    {
      hide TotalSize, Ids, Linked, Described, LastUnpinned;
      ghost var items := contents;
      var seen; ghost var m;
      seen, m := Rotate();
      Ends();
      Rotation(items, m);
      r := last;
      if r == null || r.usage != 0 || seen >= size {
        r := null;
      } else {
        RotatedOneMore(items, m);
        r := RemoveLast();
      }
    }

    /** A hit counts one more user of the entry at the front. */
    method PinFirst()
      requires Valid() && nodes != []
      modifies repr`usage, `contents
      ensures Valid() && nodes == old(nodes) && repr == old(repr)
      ensures old(contents) != [] && contents == [Hit(old(contents)[0])] + old(contents)[1..]
    {
      Ends();
      hide TotalSize, Ids, Linked;
      first.usage := first.usage + 1;
      SameBytes(contents, 0, Hit(contents[0]));
      contents := contents[0 := Hit(contents[0])];
    }

    /** cache_entry_destroy: one user less. */
    method Unpin(e: Entry, ghost k: int)
      requires Valid() && 0 <= k < |nodes| && nodes[k] == e
      modifies e`usage, `contents
      ensures Valid() && nodes == old(nodes) && repr == old(repr)
      ensures k < |old(contents)|
      ensures contents == old(contents)[k := old(contents)[k].(usage := old(contents)[k].usage - 1)]
    {
      Ends();
      hide TotalSize, Ids, Linked;
      e.usage := e.usage - 1;
      ghost var x := contents[k].(usage := contents[k].usage - 1);
      SameBytes(contents, k, x);
      contents := contents[k := x];
    }
  }

  lemma SameBytes(s: seq<Item<Entry>>, k: int, x: Item<Entry>)
    requires 0 <= k < |s| && x.size == s[k].size
    ensures TotalSize(s[k := x]) == TotalSize(s)
  {
    hide Ids, TotalSize;
    assert s == s[..k] + [s[k]] + s[k + 1..];
    assert s[k := x] == s[..k] + [x] + s[k + 1..];
    Around(s[..k], s[k], s[k + 1..]);
    Around(s[..k], x, s[k + 1..]);
  }

  lemma NothingRotated(all: seq<Entry>, items: seq<Item<Entry>>)
    ensures Rotated(all, |all|) == all && Rotated(items, |items|) == items
    ensures PinnedFrom(items, |items|) && TotalSize(items[|items|..]) == 0
  {
  }
}
