/**
 * What a hit returns: along every run, the block handed out for an id is the one that was
 * inserted last for that id.
 */
module ArcHistory {
  import opened Wrappers
  import opened ArcState
  import opened ArcRuns

  /** The client's own record of the block it last inserted for each id. */
  function Recorded<H>(last: map<Id, H>, st: State<H>, op: Op<H>): map<Id, H> {
    if op.Use? && !Resident(st, op.id) then last[op.id := op.block] else last
  }

  function RecordedRun<H>(last: map<Id, H>, st: State<H>, ops: seq<Op<H>>): map<Id, H>
    requires Consistent(st)
    decreases |ops|
  {
    if ops == [] then last
    else
      StepConsistent(st, ops[0]);
      RecordedRun(Recorded(last, st, ops[0]), Step(st, ops[0]), ops[1..])
  }

  ghost predicate Faithful<H>(s: seq<Item<H>>, last: map<Id, H>) {
    forall x :: x in s ==> x.id in last && x.block == Some(last[x.id])
  }

  ghost predicate Agrees<H>(st: State<H>, last: map<Id, H>) {
    Faithful(st.t1, last) && Faithful(st.t2, last)
  }

  lemma EvictionFaithful<H>(s: seq<Item<H>>, last: map<Id, H>)
    requires Faithful(s, last)
    ensures Faithful(AfterEviction(s), last)
  {
    hide LastUnpinned;
  }

  lemma MakeRoomAgrees<H>(st: State<H>, last: map<Id, H>)
    requires Agrees(st, last)
    ensures Agrees(Replace(st), last) && Agrees(MakeRoom(st), last)
  {
    hide TotalSize, LastUnpinned, Faithful, AfterEviction, Held;
    EvictionFaithful(st.t1, last);
    EvictionFaithful(st.t2, last);
  }

  lemma LookupAgrees<H>(st: State<H>, id: Id, last: map<Id, H>)
    requires Consistent(st) && Agrees(st, last)
    ensures Agrees(Lookup(st, id), last)
  {
    hide Ids, TotalSize, LastUnpinned, AfterEviction, Replace, IndexOf, AllIds, IdsUnique, Residents, Ghosts;
    if Resident(st, id) {
      HitAgrees(st, id, last);
    } else if IndexOf(st.b1, id) >= 0 || IndexOf(st.b2, id) >= 0 {
      LookupGhost(st, id);
      MakeRoomAgrees(GhostDropped(st, id), last);
    }
  }

  lemma HitAgrees<H>(st: State<H>, id: Id, last: map<Id, H>)
    requires Consistent(st) && Agrees(st, last) && Resident(st, id)
    ensures Agrees(Lookup(st, id), last)
  {
    hide Ids, TotalSize, LastUnpinned, AfterEviction, Replace, IndexOf, AllIds, IdsUnique, Residents, Ghosts;
    var i1 := IndexOf(st.t1, id);
    var i2 := IndexOf(st.t2, id);
    var x := if i1 >= 0 then st.t1[i1] else st.t2[i2];
    assert x in st.t1 || x in st.t2;
  }

  /** A new record for an id changes nothing for lists that do not hold it. */
  lemma OtherIdsFaithful<H>(s: seq<Item<H>>, last: map<Id, H>, id: Id, block: H)
    requires Faithful(s, last) && id !in Ids(s)
    ensures Faithful(s, last[id := block])
  {
    forall x | x in s ensures x.id != id {
      IdsMember(s, id);
      var k :| 0 <= k < |s| && s[k] == x;
      assert s[k].id == x.id;
    }
  }

  lemma InsertAgrees<H>(st: State<H>, item: Item<H>, last: map<Id, H>)
    requires Consistent(st) && Agrees(st, last) && st.insert != Unset
    requires item.id !in AllIds(st) && item.block.Some?
    ensures Agrees(Insert(st, item), last[item.id := item.block.value])
  {
    hide Ids, MakeRoom, Consistent, TotalSize, Faithful;
    MakeRoomAgrees(st, last);
    MakeRoomIds(st);
    var room := if st.insert == AtT1 then MakeRoom(st) else st;
    assert item.id !in Ids(room.t1) && item.id !in Ids(room.t2) by {
      assert AllIds(room)[item.id] <= AllIds(st)[item.id];
    }
    OtherIdsFaithful(room.t1, last, item.id, item.block.value);
    OtherIdsFaithful(room.t2, last, item.id, item.block.value);
    PrependFaithful(room.t1, last[item.id := item.block.value], item);
    PrependFaithful(room.t2, last[item.id := item.block.value], item);
  }

  lemma PrependFaithful<H>(s: seq<Item<H>>, last: map<Id, H>, x: Item<H>)
    requires Faithful(s, last) && x.id in last && x.block == Some(last[x.id])
    ensures Faithful([x] + s, last)
  {
  }

  lemma StepAgrees<H>(st: State<H>, op: Op<H>, last: map<Id, H>)
    requires Consistent(st) && Agrees(st, last)
    ensures Agrees(Step(st, op), Recorded(last, st, op))
  {
    hide Ids, TotalSize, IndexOf, Lookup, Insert, AllIds, IdsUnique, Residents, Ghosts, Resident;
    match op
    case Use(id, n, block) =>
      LookupAgrees(st, id, last);
      if !Resident(st, id) {
        MissIds(st, id);
        InsertAgrees(Lookup(st, id), NewItem(st, id, n, block), last);
      }
    case Done(id) => ReleaseAgrees(st, id, last);
    case Forget(_) =>
  }

  lemma ReleaseAgrees<H>(st: State<H>, id: Id, last: map<Id, H>)
    requires Agrees(st, last)
    ensures Agrees(Release(st, id), last)
  {
    hide IndexOf;
    var i1 := IndexOf(st.t1, id);
    var i2 := IndexOf(st.t2, id);
    if i1 >= 0 {
      assert st.t1[i1] in st.t1;
    } else if i2 >= 0 {
      assert st.t2[i2] in st.t2;
    }
  }

  lemma {:induction false} RunAgrees<H>(st: State<H>, ops: seq<Op<H>>, last: map<Id, H>)
    requires Consistent(st) && Agrees(st, last)
    ensures Agrees(Run(st, ops), RecordedRun(last, st, ops))
    decreases |ops|
  {
    hide Step, Consistent, Agrees, Recorded;
    if ops != [] {
      StepConsistent(st, ops[0]);
      StepAgrees(st, ops[0], last);
      RunAgrees(Step(st, ops[0]), ops[1..], Recorded(last, st, ops[0]));
    }
  }

  /**
   * Main result on contents: whatever happened since the cache was empty, a lookup that
   * hits hands out the block last inserted for that id, and one that misses hands out none.
   */
  lemma HitReturnsLatest<H>(size: int, entrySize: int, ops: seq<Op<H>>, id: Id)
    requires size > 0 && entrySize > 0
    ensures Consistent(Empty<H>(size, entrySize))
    ensures var st := Run(Empty<H>(size, entrySize), ops);
      var last := RecordedRun(map[], Empty<H>(size, entrySize), ops);
      LookupBlock(st, id) == if Resident(st, id) then (if id in last then Some(last[id]) else None) else None
    ensures Resident(Run(Empty<H>(size, entrySize), ops), id) ==>
      id in RecordedRun(map[], Empty<H>(size, entrySize), ops)
  {
    EmptyConsistent<H>(size, entrySize);
    var st0 := Empty<H>(size, entrySize);
    assert Agrees(st0, map[]);
    RunAgrees(st0, ops, map[]);
    hide Run, RecordedRun, Consistent, IndexOf;
    var st := Run(st0, ops);
    assert IndexOf(st.t1, id) >= 0 ==> st.t1[IndexOf(st.t1, id)] in st.t1;
    assert IndexOf(st.t2, id) >= 0 ==> st.t2[IndexOf(st.t2, id)] in st.t2;
  }
}
