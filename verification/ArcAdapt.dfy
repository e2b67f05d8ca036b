/**
 * How the cache of navit/cache.c adapts: which way and how far the target for T1 moves, which side gives up an
 * entry, and where an entry that was asked for comes to stand.
 */
module ArcAdapt {
  import opened Wrappers
  import opened ArcState
  import opened ArcRuns

  /** A step that a list of `hit` bytes may take beside one of `other` bytes: 1, or as often as it fits in there. */
  predicate Allowed(step: int, hit: int, other: int) {
    step <= 1 || step * hit <= other
  }

  lemma Product(x: nat, b: nat)
    ensures x * b >= 0
  {
  }

  lemma QuotientIsLargest(a: int, b: int)
    requires a >= 0 && b > 0
    ensures forall s: int :: Allowed(s, b, a) <==> s <= 1 || s <= a / b
  {
    var q, m := a / b, a % b;
    assert a == b * q + m;
    forall s: int
      ensures s * b <= a <==> s <= q
    {
      assert s * b == b * q - (q - s) * b;
      if s <= q {
        Product(q - s, b);
      } else {
        Product(s - q - 1, b);
        assert (q - s) * b == -((s - q - 1) * b) - b;
      }
    }
  }

  lemma NoNegativeBytes<H>(st: State<H>)
    requires Consistent(st)
    ensures TotalSize(st.b1) >= 0 && TotalSize(st.b2) >= 0
  {
    hide TotalSize, IdsUnique;
    TotalSizeAtLeast(st.b1, st.entrySize);
    TotalSizeAtLeast(st.b2, st.entrySize);
  }

  lemma GhostIsNoResident<H>(st: State<H>, id: Id)
    requires Consistent(st) && (IndexOf(st.b1, id) >= 0 || IndexOf(st.b2, id) >= 0)
    ensures !Resident(st, id) && (IndexOf(st.b1, id) < 0 || IndexOf(st.b2, id) < 0)
  {
    hide Ids, IndexOf, TotalSize;
    assert AllIds(st)[id] <= 1;
    IdsMember(st.t1, id);
    IdsMember(st.t2, id);
    IdsMember(st.b1, id);
    IdsMember(st.b2, id);
  }

  /**
   * A hit in B1 raises the target unless it is as large as the cache: by the largest step that is allowed
   * and that keeps it within the size of the cache.
   */
  lemma HitInB1Raises<H>(st: State<H>, id: Id)
    requires Consistent(st) && IndexOf(st.b1, id) >= 0
    ensures var step := Lookup(st, id).target - st.target;
      && (if st.target == st.size then step == 0 else step > 0)
      && st.target + step <= st.size
      && Allowed(step, TotalSize(st.b1), TotalSize(st.b2))
      && forall s: int :: s > step && Allowed(s, TotalSize(st.b1), TotalSize(st.b2)) ==> st.target + s > st.size
  {
    hide IndexOf, TotalSize, IdsUnique, Replace, GhostDropped;
    GhostIsNoResident(st, id);
    GhostBytes(st, id);
    NoNegativeBytes(st);
    LookupGhost(st, id);
    GhostTarget(st, id);
    ReplaceMovesOne(GhostDropped(st, id));
    QuotientIsLargest(TotalSize(st.b2), TotalSize(st.b1));
  }

  /** A hit in B2 lowers it in the same way, down to 0. */
  lemma HitInB2Lowers<H>(st: State<H>, id: Id)
    requires Consistent(st) && IndexOf(st.b2, id) >= 0
    ensures var step := st.target - Lookup(st, id).target;
      && (if st.target == 0 then step == 0 else step > 0)
      && st.target - step >= 0
      && Allowed(step, TotalSize(st.b2), TotalSize(st.b1))
      && forall s: int :: s > step && Allowed(s, TotalSize(st.b2), TotalSize(st.b1)) ==> st.target - s < 0
  {
    hide IndexOf, TotalSize, IdsUnique, Replace, GhostDropped;
    GhostIsNoResident(st, id);
    GhostBytes(st, id);
    NoNegativeBytes(st);
    LookupGhost(st, id);
    GhostTarget(st, id);
    ReplaceMovesOne(GhostDropped(st, id));
    QuotientIsLargest(TotalSize(st.b1), TotalSize(st.b2));
  }

  lemma GhostTarget<H>(st: State<H>, id: Id)
    requires Consistent(st) && !Resident(st, id)
    requires IndexOf(st.b1, id) >= 0 || IndexOf(st.b2, id) >= 0
    requires IndexOf(st.b1, id) >= 0 ==> TotalSize(st.b1) > 0
    requires IndexOf(st.b2, id) >= 0 ==> TotalSize(st.b2) > 0
    ensures GhostDropped(st, id).target ==
      if IndexOf(st.b1, id) >= 0 then TargetAfterB1Hit(st) else TargetAfterB2Hit(st)
  {
    hide IndexOf, TotalSize, IdsUnique;
  }

  /** No other lookup changes the target, nor does an insertion, a release or a flush. */
  lemma OthersKeepTarget<H>(st: State<H>, id: Id)
    requires Consistent(st) && IndexOf(st.b1, id) < 0 && IndexOf(st.b2, id) < 0
    ensures Lookup(st, id).target == st.target
    ensures Release(st, id).target == st.target && Flush(st, id).target == st.target
  {
    hide IndexOf, TotalSize, IdsUnique, Replace;
  }

  lemma InsertKeepsTarget<H>(st: State<H>, item: Item<H>)
    requires st.insert != Unset
    ensures Insert(st, item).target == st.target
  {
    hide IndexOf, TotalSize, Replace, AfterEviction, Held;
    ReplaceMovesOne(st.(b1 := AfterEviction(st.b1)));
    ReplaceMovesOne(st.(b2 := AfterEviction(st.b2)));
    ReplaceMovesOne(st);
  }

  // ---------------------------------------------------------------- eviction

  /** Position k has the least recently used free entry; it is taken out, and what was behind it comes to the front. */
  ghost predicate GivesUp<H>(before: seq<Item<H>>, k: nat, after: seq<Item<H>>) {
    && k < |before| && before[k].usage == 0 && (forall j :: k < j < |before| ==> before[j].usage != 0)
    && after == before[k + 1..] + before[..k]
  }

  /** What becomes of a resident that is given up: the same id, used by nobody, and no more bytes than a header. */
  ghost predicate HeaderOf<H>(header: Item<H>, victim: Item<H>, entrySize: int) {
    && header.id == victim.id && header.usage == victim.usage
    && (victim.size > entrySize ==> header.size == entrySize && header.block == None)
    && (victim.size <= entrySize ==> header == victim)
  }

  lemma EvictionGivesUp<H>(s: seq<Item<H>>)
    requires !AllPinned(s)
    ensures LastUnpinned(s) >= 0 && GivesUp(s, LastUnpinned(s), AfterEviction(s))
  {
    EvictLength(s);
  }

  /**
   * A replacement takes an entry from T1 exactly if T1 has reached its target and an entry of it is free, or no
   * entry of T2 is; the victim is the least recently used free one, and its header comes first among the ghosts
   * of its side.
   */
  lemma ReplaceSide<H>(st: State<H>)
    requires !AllPinned(st.t1) || !AllPinned(st.t2)
    ensures var r := Replace(st);
      var fromT1 := AllPinned(st.t2) ||
        (TotalSize(st.t1) >= 1 && TotalSize(st.t1) >= st.target && !AllPinned(st.t1));
      if fromT1 then
        && r == st.(t1 := r.t1, b1 := r.b1) && r.b1 != [] && r.b1[1..] == st.b1
        && exists k: nat :: GivesUp(st.t1, k, r.t1) && HeaderOf(r.b1[0], st.t1[k], st.entrySize)
      else
        && r == st.(t2 := r.t2, b2 := r.b2) && r.b2 != [] && r.b2[1..] == st.b2
        && exists k: nat :: GivesUp(st.t2, k, r.t2) && HeaderOf(r.b2[0], st.t2[k], st.entrySize)
  {
    hide TotalSize, LastUnpinned, AllPinned, AfterEviction, GivesUp;
    EvictLength(st.t1);
    EvictLength(st.t2);
    if !AllPinned(st.t1) {
      EvictionGivesUp(st.t1);
    }
    if !AllPinned(st.t2) {
      EvictionGivesUp(st.t2);
    }
  }

  /** What room for a new id costs: at most one id is forgotten, and it depends on the bytes whose. */
  lemma RoomForgets<H>(st: State<H>)
    ensures var r, recent := MakeRoom(st), TotalSize(st.t1) + TotalSize(st.b1);
      var forgotten := AllIds(st) - AllIds(r);
      && AllIds(r) <= AllIds(st) && |forgotten| <= 1
      && (recent < st.size && Held(st) < 2 * st.size ==> forgotten == multiset{})
      && (recent < st.size ==> forgotten <= Ids(st.b2))
      && (TotalSize(st.t1) < st.size <= recent ==> forgotten <= Ids(st.b1))
      && (st.size <= TotalSize(st.t1) && st.size <= recent ==> forgotten <= Ids(st.t1) && r == st.(t1 := r.t1))
  {
    hide TotalSize, LastUnpinned, Replace, AfterEviction, Ids, Held, AllIds, AllPinned;
    assert AllIds(st) - AllIds(st) == multiset{};
    ReplaceMovesOne(st);
    ReplaceMovesOne(Evict(st, PlaceB1));
    ReplaceMovesOne(Evict(st, PlaceB2));
    EvictedIds(st, PlaceT1);
    EvictedIds(st, PlaceB1);
    EvictedIds(st, PlaceB2);
  }

  lemma OneGone(all: multiset<Id>, rest: multiset<Id>, part: multiset<Id>, left: multiset<Id>,
                others: multiset<Id>, id: Id)
    requires all == part + others && rest == left + others && part == left + multiset{id}
    ensures rest <= all && all - rest == multiset{id} && multiset{id} <= part
  {
  }

  lemma EvictedIds<H>(st: State<H>, p: Place)
    ensures var gone := AllIds(st) - AllIds(Evict(st, p));
      && AllIds(Evict(st, p)) <= AllIds(st) && |gone| <= 1
      && gone <= match p case PlaceT1 => Ids(st.t1) case PlaceB1 => Ids(st.b1) case PlaceB2 => Ids(st.b2)
  {
    hide TotalSize, LastUnpinned, AfterEviction, Ids, AllIds;
    var s := match p case PlaceT1 => st.t1 case PlaceB1 => st.b1 case PlaceB2 => st.b2;
    var others := OtherIds(st, p);
    EvictOne(s);
    IdsInParts(st, p);
    var k, r := LastUnpinned(s), Evict(st, p);
    IdsInParts(r, p);
    if k >= 0 {
      OneGone(AllIds(st), AllIds(r), Ids(s), Ids(AfterEviction(s)), others, s[k].id);
    } else {
      assert AllIds(st) - AllIds(st) == multiset{};
    }
  }

  ghost function OtherIds<H>(st: State<H>, p: Place): multiset<Id> {
    match p
    case PlaceT1 => Ids(st.b1) + Ids(st.t2) + Ids(st.b2)
    case PlaceB1 => Ids(st.t1) + Ids(st.t2) + Ids(st.b2)
    case PlaceB2 => Ids(st.t1) + Ids(st.b1) + Ids(st.t2)
  }

  lemma IdsInParts<H>(st: State<H>, p: Place)
    ensures AllIds(st) == OtherIds(st, p) +
      match p case PlaceT1 => Ids(st.t1) case PlaceB1 => Ids(st.b1) case PlaceB2 => Ids(st.b2)
  {
    hide Ids;
  }

  /** After an access the id stands first: in T2 if it was known, in T1 if it is new. */
  lemma AccessPutsFirst<H>(st: State<H>, id: Id, dataSize: nat, block: H)
    requires Consistent(st)
    ensures var r := Access(st, id, dataSize, block);
      && (id in AllIds(st) ==> r.t2 != [] && r.t2[0].id == id)
      && (id !in AllIds(st) ==> r.t1 != [] && r.t1[0].id == id)
      && (!Resident(st, id) ==>
            (if id in AllIds(st) then r.t2 else r.t1)[0] == Item(id, 1, dataSize + st.entrySize, Some(block)))
  {
    hide TotalSize, LastUnpinned, Ids, IndexOf, Lookup, MakeRoom, IdsUnique;
    ResidentIffKnown(st, id);
    if Resident(st, id) {
      HitMovesToFront(st, id);
    } else {
      MissIds(st, id);
    }
  }

  /** How many users a resident has */
  function UsageOf<H>(st: State<H>, id: Id): int
    requires Resident(st, id)
  {
    var i1, i2 := IndexOf(st.t1, id), IndexOf(st.t2, id);
    if i1 >= 0 then st.t1[i1].usage else st.t2[i2].usage
  }

  /** A hit adds a user to a resident, and giving the block back takes one away. */
  lemma ReleaseUndoesHit<H>(st: State<H>, id: Id)
    requires Consistent(st) && Resident(st, id)
    ensures var hit := Lookup(st, id);
      && Resident(hit, id) && UsageOf(hit, id) == UsageOf(st, id) + 1
      && Resident(Release(hit, id), id) && UsageOf(Release(hit, id), id) == UsageOf(st, id)
  {
    HitIds(st, id);
    HitConsistent(st, id);
    var hit := Lookup(st, id);
    ResidentIffKnown(st, id);
    NotInT1(st, id);
    ReleaseLowers(hit, id);
  }

  /** After a hit the entry is first in T2 and no longer in T1. */
  lemma NotInT1<H>(st: State<H>, id: Id)
    requires Consistent(st) && Resident(st, id)
    ensures var hit := Lookup(st, id);
      && IndexOf(hit.t1, id) < 0 && IndexOf(hit.t2, id) == 0 && hit.t2[0].usage == UsageOf(st, id) + 1
  {
    hide Ids, TotalSize, LastUnpinned, Replace;
    ResidentOnce(st, id);
    OthersOf(st.t1, id);
    NoneOfOthers(st.t1, id);
  }

  lemma {:induction false} NoneOfOthers<H>(s: seq<Item<H>>, id: Id)
    ensures IndexOf(Others(s, id), id) < 0
  {
    if s != [] {
      NoneOfOthers(s[1..], id);
    }
  }

  lemma ReleaseLowers<H>(st: State<H>, id: Id)
    requires Resident(st, id)
    ensures Resident(Release(st, id), id) && UsageOf(Release(st, id), id) == UsageOf(st, id) - 1
  {
    hide IndexOf;
    var i1, i2 := IndexOf(st.t1, id), IndexOf(st.t2, id);
    if i1 >= 0 {
      SameIndex(st.t1, i1, Unpin(st.t1[i1]), id);
    } else {
      SameIndex(st.t2, i2, Unpin(st.t2[i2]), id);
    }
  }

  /** An entry that is replaced by one of the same id is found where it was. */
  lemma {:induction false} SameIndex<H>(s: seq<Item<H>>, k: int, x: Item<H>, id: Id)
    requires 0 <= k < |s| && s[k].id == x.id
    ensures IndexOf(s[k := x], id) == IndexOf(s, id)
  {
    if k > 0 {
      assert s[k := x][1..] == s[1..][k - 1 := x];
      SameIndex(s[1..], k - 1, x, id);
    } else {
      assert s[k := x][1..] == s[1..];
    }
  }
}
