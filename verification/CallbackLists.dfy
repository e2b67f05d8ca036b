/**
 * Callback lists that are changed, called again or destroyed by their own callbacks
 * (navit/callback.c).
 */
module CallbackLists {
  import opened Wrappers

  const ANY_KIND := 0

  /** A list node. Nodes get new ids when they are prepended, so ids fall along a list. */
  datatype Node = Node(id: nat, callback: nat, kind: nat)

  predicate Matches(n: Node, kind: nat) {
    kind == ANY_KIND || n.kind == ANY_KIND || n.kind == kind
  }

  /** A call of any kind starts all, a callback of any kind is started by all, and the others keep to their kind. */
  lemma WhoMatches(n: Node, kind: nat)
    ensures kind == ANY_KIND ==> Matches(n, kind)
    ensures n.kind == ANY_KIND ==> Matches(n, kind)
    ensures kind != ANY_KIND && n.kind != ANY_KIND ==> (Matches(n, kind) <==> n.kind == kind)
  {
  }

  /** What a callback may do to the list that calls it. */
  datatype Action = Add(callback: nat, kind: nat) | Remove(callback: nat) | Destroy | Call(kind: nat)

  datatype Event =
    | Touched(node: Node)                // the loop reads a node
    | Started(depth: nat, node: Node)    // and starts its callback
    | Destroyed
    | Freed

  predicate Falling(list: seq<Node>) {
    forall i, j :: 0 <= i < j < |list| ==> list[i].id > list[j].id
  }

  /** The node behind one, that is its `next` */
  function Behind(list: seq<Node>, n: Node): (r: Option<Node>)
    ensures r.Some? ==> r.value in list
  {
    if list == [] then None
    else if list[0] == n then if |list| > 1 then Some(list[1]) else None
    else Behind(list[1..], n)
  }

  /** g_list_remove: without the first node of a callback */
  function Without(list: seq<Node>, callback: nat): (r: seq<Node>)
    ensures forall n :: n in r ==> n in list
  {
    if list == [] then []
    else if list[0].callback == callback then list[1..]
    else [list[0]] + Without(list[1..], callback)
  }

  /** Removing a callback takes out its first node, that is the one added last, and leaves the others as they are. */
  lemma {:induction false} WithoutFirst(list: seq<Node>, callback: nat) returns (k: nat)
    ensures k <= |list| && forall i :: 0 <= i < k ==> list[i].callback != callback
    ensures k < |list| ==> list[k].callback == callback && Without(list, callback) == list[..k] + list[k + 1..]
    ensures k == |list| ==> Without(list, callback) == list
  {
    if list == [] || list[0].callback == callback {
      k := 0;
    } else {
      var j := WithoutFirst(list[1..], callback);
      k := j + 1;
      assert list == [list[0]] + list[1..];
    }
  }

  /** The nodes that a frame of that depth started, in order */
  function Ran(log: seq<Event>, depth: nat): seq<Node> {
    if log == [] then []
    else
      var e := log[|log| - 1];
      Ran(log[..|log| - 1], depth) + if e.Started? && e.depth == depth then [e.node] else []
  }

  /** After a destruction no node is touched and no callback started. */
  ghost predicate Quiet(log: seq<Event>) {
    forall i, j :: 0 <= i < j < |log| && log[i] == Destroyed ==>
      log[j] != Destroyed && !log[j].Touched? && !log[j].Started?
  }

  /** The node that the i-th frame remembers is gone. */
  ghost predicate Dangling(saved: seq<Option<Node>>, list: seq<Node>, i: nat)
    requires i < |saved|
  {
    saved[i].Some? && saved[i].value !in list
  }

  ghost predicate Lost(saved: seq<Option<Node>>, list: seq<Node>) {
    exists i :: 0 <= i < |saved| && Dangling(saved, list, i)
  }

  // ---------------------------------------------------------------- lemmas

  /** What the innermost frame remembers does not matter unless it is gone. */
  lemma LostElsewhere(saved: seq<Option<Node>>, now: seq<Option<Node>>, list: seq<Node>)
    requires saved != [] && !Dangling(saved, list, |saved| - 1)
    requires now == saved[..|saved| - 1] || (|now| == |saved| && now[..|saved| - 1] == saved[..|saved| - 1]
      && !Dangling(now, list, |saved| - 1))
    ensures Lost(now, list) <==> Lost(saved, list)
  {
    forall i | 0 <= i < |saved| - 1
      ensures Dangling(saved, list, i) <==> Dangling(now, list, i)
    {
      assert saved[i] == saved[..|saved| - 1][i];
      assert |now| == |saved| ==> now[i] == now[..|saved| - 1][i];
    }
  }

  lemma KeptWhenPopped(saved: seq<Option<Node>>, list: seq<Node>)
    requires saved != []
    ensures Lost(saved[..|saved| - 1], list) ==> Lost(saved, list)
  {
    if Lost(saved[..|saved| - 1], list) {
      var i :| 0 <= i < |saved| - 1 && Dangling(saved[..|saved| - 1], list, i);
      assert Dangling(saved, list, i);
    }
  }

  lemma LostSomewhere(saved: seq<Option<Node>>, list: seq<Node>, i: nat)
    requires i < |saved| && Dangling(saved, list, i)
    ensures Lost(saved, list)
  {
  }

  lemma NoneLost(list: seq<Node>)
    ensures !Lost([], list) && Falling([])
  {
  }

  lemma LostNowhereNew(saved: seq<Option<Node>>, list: seq<Node>)
    ensures Lost(saved + [None], list) <==> Lost(saved, list)
  {
    LostElsewhere(saved + [None], saved, list);
  }

  lemma {:induction false} BehindIs(list: seq<Node>, n: Node)
    requires Falling(list) && n in list
    ensures var b := Behind(list, n);
      && (b.Some? ==> b.value.id < n.id)
      && forall m :: m in list && m.id < n.id ==> b.Some? && m.id <= b.value.id
  {
    if list[0] != n {
      BehindIs(list[1..], n);
    }
  }

  lemma {:induction false} WithoutFalls(list: seq<Node>, callback: nat)
    requires Falling(list)
    ensures Falling(Without(list, callback))
  {
    if list != [] && list[0].callback != callback {
      WithoutFalls(list[1..], callback);
      var rest := Without(list[1..], callback);
      assert forall n :: n in rest ==> n in list[1..];
      forall j | 0 <= j < |rest|
        ensures list[0].id > rest[j].id
      {
        assert rest[j] in rest;
        var k :| 0 <= k < |list| - 1 && list[1..][k] == rest[j];
      }
    }
  }

  lemma NothingFalls()
    ensures Falling([])
  {
  }

  lemma FallingAppend(nodes: seq<Node>, node: Node)
    requires Falling(nodes)
    ensures (forall n :: n in nodes ==> n.id > node.id) ==> Falling(nodes + [node])
  {
  }

  lemma FirstIsLatest(list: seq<Node>)
    requires Falling(list)
    ensures list != [] ==> forall n :: n in list ==> n.id <= list[0].id
  {
  }

  lemma SameId(list: seq<Node>, node: Node)
    requires Falling(list) && node in list
    ensures forall n :: n in list && n.id == node.id ==> n == node
  {
  }

  lemma RanAppend(log: seq<Event>, e: Event, depth: nat)
    ensures Ran(log + [e], depth) == Ran(log, depth) + if e.Started? && e.depth == depth then [e.node] else []
  {
    assert (log + [e])[..|log|] == log;
  }

  /** Two falling lists of the same nodes are equal. */
  lemma {:induction false} SameNodesSameList(a: seq<Node>, b: seq<Node>)
    requires Falling(a) && Falling(b) && forall n :: n in a <==> n in b
    ensures a == b
  {
    if a == [] {
      HasFirst(b);
    } else {
      assert a[0] in b && b[0] in a;
      var i :| 0 <= i < |b| && b[i] == a[0];
      TailMembers(a, b);
      TailMembers(b, a);
      SameNodesSameList(a[1..], b[1..]);
    }
  }

  function Matching(list: seq<Node>, kind: nat): (r: seq<Node>)
    ensures forall n :: n in r <==> n in list && Matches(n, kind)
  {
    if list == [] then []
    else (if Matches(list[0], kind) then [list[0]] else []) + Matching(list[1..], kind)
  }

  lemma {:induction false} MatchingFalls(list: seq<Node>, kind: nat)
    requires Falling(list)
    ensures Falling(Matching(list, kind))
  {
    if list != [] {
      MatchingFalls(list[1..], kind);
      var rest := Matching(list[1..], kind);
      forall j | 0 <= j < |rest|
        ensures list[0].id > rest[j].id
      {
        assert rest[j] in list[1..];
        var k :| 0 <= k < |list| - 1 && list[1..][k] == rest[j];
      }
    }
  }

  /** A walk that started all matching nodes once and in order started just those. */
  lemma AllStarted(list: seq<Node>, kind: nat, ran: seq<Node>)
    requires Falling(list) && Falling(ran)
    requires forall n :: n in ran ==> n in list && Matches(n, kind)
    requires forall n :: n in list && Matches(n, kind) ==> n in ran
    ensures ran == Matching(list, kind)
  {
    MatchingFalls(list, kind);
    SameNodesSameList(ran, Matching(list, kind));
  }

  lemma HasFirst(b: seq<Node>)
    ensures b == [] || b[0] in b
  {
  }

  lemma TailMembers(a: seq<Node>, b: seq<Node>)
    requires Falling(a) && Falling(b) && a != [] && b != [] && forall n :: n in a ==> n in b
    requires a[0].id >= b[0].id
    ensures a[0] == b[0] && forall n :: n in a[1..] ==> n in b[1..]
  {
    assert a[0] in a && a[0] in b;
    var k :| 0 <= k < |b| && b[k] == a[0];
    forall n | n in a[1..]
      ensures n in b[1..]
    {
      var i :| 0 < i < |a| && a[i] == n;
      assert n in a && n in b;
      var j :| 0 <= j < |b| && b[j] == n;
      assert j > 0 && b[1..][j - 1] == n;
    }
  }

  // ------------------------------------------------------------- the lists

  /** struct callback_list; the script says what the callbacks do, one entry for each start */
  class CallbackList {
    const script: seq<seq<Action>>
    var list: seq<Node>
    var iterating: nat
    var zombie: bool
    var freed: nat          // how often the list itself was freed
    var ids: nat            // the next node id
    var step: nat           // how many callbacks were started
    ghost var log: seq<Event>
    ghost var saved: seq<Option<Node>>  // the next node that each active frame remembers
    ghost var removedSaved: bool        // a callback removed such a node
    ghost var undefined: bool           // a frame went on with a node that is gone

    constructor (script: seq<seq<Action>>)
      ensures Valid() && list == [] && iterating == 0 && !zombie && log == [] && !removedSaved && !undefined
    {
      this.script := script;
      list, iterating, zombie, freed, ids, step := [], 0, false, 0, 0, 0;
      log, saved, removedSaved, undefined := [], [], false, false;
    }

    ghost predicate Valid()
      reads this
    {
      && Falling(list) && (forall n :: n in list ==> n.id < ids)
      && step <= |script| && |saved| == iterating
      && freed == (if zombie && iterating == 0 then 1 else 0)
      && (zombie <==> Destroyed in log) && Quiet(log)
      && (freed == 0 ==> Freed !in log)
      && (forall i :: 0 <= i < |saved| && saved[i].Some? ==> saved[i].value.id < ids)
      && (undefined ==> removedSaved)
      && (!zombie && !removedSaved ==> !Lost(saved, list))
      && (!zombie && removedSaved && !undefined ==> Lost(saved, list))
    }

    /** What any action leaves alone or only adds to */
    twostate predicate Onward()
      reads this
    {
      && Valid() && iterating == old(iterating) && saved == old(saved)
      && old(log) <= log && old(ids) <= ids && old(step) <= step
      && (old(zombie) ==> zombie) && (old(removedSaved) ==> removedSaved) && (old(undefined) ==> undefined)
      && forall n :: n in list && n.id < old(ids) ==> n in old(list)
    }

    /** Frames up to a depth have started nothing more. */
    twostate predicate RanKept(depth: nat)
      reads this
    {
      forall d: nat :: d <= depth ==> Ran(log, d) == Ran(old(log), d)
    }

    /** What the innermost frame leaves alone or only adds to while it walks over the list */
    twostate predicate Walking()
      reads this
    {
      && Valid() && freed == 0 && iterating == old(iterating) > 0 && |old(saved)| == |saved|
      && saved[..iterating - 1] == old(saved)[..iterating - 1]
      && old(log) <= log && old(ids) <= ids && old(step) <= step
      && (old(removedSaved) ==> removedSaved) && (old(undefined) ==> undefined)
      && (forall n :: n in list && n.id < old(ids) ==> n in old(list))
      && RanKept(iterating - 1)
    }

    /** callback_list_add */
    method Add(callback: nat, kind: nat)
      requires Valid() && freed == 0
      modifies this
      ensures Onward() && zombie == old(zombie) && log == old(log) && freed == 0
      ensures list == [Node(old(ids), callback, kind)] + old(list)
    {
      ghost var before := list;
      list, ids := [Node(ids, callback, kind)] + list, ids + 1;
      assert forall i :: 0 <= i < |saved| ==> Dangling(saved, before, i) == Dangling(saved, list, i);
    }

    /** callback_list_remove */
    method Remove(callback: nat)
      requires Valid() && freed == 0
      modifies this
      ensures Onward() && zombie == old(zombie) && log == old(log) && freed == 0
      ensures list == Without(old(list), callback)
      ensures removedSaved == (old(removedSaved) || exists i ::
        0 <= i < |saved| && !Dangling(saved, old(list), i) && Dangling(saved, list, i))
    {
      WithoutFalls(list, callback);
      ghost var before := list;
      list := Without(list, callback);
      removedSaved := removedSaved || exists i ::
        0 <= i < |saved| && !Dangling(saved, before, i) && Dangling(saved, list, i);
      assert forall i :: 0 <= i < |saved| && Dangling(saved, before, i) ==> Dangling(saved, list, i);
    }

    /** callback_list_destroy: frees the nodes, and the list unless a call is going through it */
    method Destroy()
      requires Valid() && freed == 0
      modifies this
      ensures Onward() && zombie
      ensures old(zombie) ==> list == old(list) && log == old(log)
      ensures !old(zombie) ==> list == [] && log == old(log) + [Destroyed] + if iterating == 0 then [Freed] else []
    {
      if zombie {
        return;
      }
      zombie := true;
      log := log + [Destroyed];
      list := [];
      if iterating == 0 {
        freed, log := freed + 1, log + [Freed];
      }
    }

    /** One start of a callback: what the script says, with freed nodes and nested calls */
    method Invoke()
      requires Valid() && freed == 0 && iterating > 0
      modifies this
      ensures Onward() && freed == 0
      ensures RanKept(iterating)
      decreases |script| - step, 0
    {
      hide Falling, Quiet, Without, Lost;
      if step == |script| {
        return;
      }
      var actions := script[step];
      step := step + 1;
      for i := 0 to |actions|
        invariant Onward() && freed == 0 && step > old(step)
        invariant RanKept(iterating)
      {
        Act(actions[i]);
      }
    }

    method Act(action: Action)
      requires Valid() && freed == 0 && iterating > 0
      modifies this
      ensures Onward() && freed == 0
      ensures RanKept(iterating)
      decreases |script| - step, 4
    {
      hide Falling, Quiet, Without, Ran, Lost;
      ghost var before := log;
      match action
      case Add(callback, kind) => Add(callback, kind);
      case Remove(callback) => Remove(callback);
      case Destroy =>
        forall d: nat {
          RanAppend(before, Destroyed, d);
        }
        assert before + [Destroyed] + [] == before + [Destroyed];
        Destroy();
      case Call(kind) =>
        ghost var ran := CallAttr(kind);
    }

    /**
     * callback_list_call_attr. Unless the list is destroyed or a remembered node removed meanwhile, it starts
     * the matching nodes that were there before and were not removed, each once and in order.
     */
    method CallAttr(kind: nat) returns (ghost ran: seq<Node>)
      requires Valid() && freed == 0
      modifies this
      ensures Onward() && (iterating > 0 ==> freed == 0)
      ensures old(zombie) ==> list == old(list) && log == old(log)
      ensures RanKept(iterating)
      ensures Ran(log, iterating + 1) == Ran(old(log), iterating + 1) + ran
      ensures Falling(ran) && forall n :: n in ran ==> n in old(list) && Matches(n, kind)
      ensures !zombie && !undefined ==> forall n :: n in old(list) && n in list && Matches(n, kind) ==> n in ran
      ensures !zombie && !undefined && list == old(list) ==> ran == Matching(list, kind)
      ensures iterating == 0 && !zombie ==> (undefined <==> removedSaved)
      decreases |script| - step, 3
    {
      hide Ran, Matches, Quiet, Lost, Falling, Matching;
      ran := [];
      NoneLost(list);
      if zombie {
        return;
      }
      Enter();
      ran := Walk(kind);
      Leave();
      if !zombie && !undefined && list == old(list) {
        AllStarted(list, kind, ran);
      }
      NoneLost(list);
    }

    /** A frame begins. */
    method Enter()
      requires Valid() && freed == 0 && !zombie
      modifies `iterating, `saved
      ensures Valid() && freed == 0 && iterating == old(iterating) + 1 && saved == old(saved) + [None]
    {
      hide Falling, Quiet, Lost;
      LostNowhereNew(saved, list);
      iterating, saved := iterating + 1, saved + [None];
    }

    /** A frame ends; the outermost one frees a destroyed list. */
    method Leave()
      requires Valid() && freed == 0 && iterating > 0
      requires !zombie && !undefined ==> !Dangling(saved, list, iterating - 1)
      modifies `iterating, `saved, `freed, `log
      ensures Valid() && iterating == old(iterating) - 1 && saved == old(saved)[..iterating]
      ensures iterating > 0 ==> freed == 0
      ensures old(log) <= log && forall d: nat :: Ran(log, d) == Ran(old(log), d)
    {
      hide Falling, Ran, Lost, Dangling;
      if !zombie && !undefined {
        LostElsewhere(saved, saved[..|saved| - 1], list);
      }
      KeptWhenPopped(saved, list);
      iterating, saved := iterating - 1, saved[..|saved| - 1];
      if zombie && iterating == 0 {
        forall d: nat {
          RanAppend(log, Freed, d);
        }
        freed, log := freed + 1, log + [Freed];
      }
    }

    /** Its loop */
    method Walk(kind: nat) returns (ghost ran: seq<Node>)
      requires Valid() && freed == 0 && !zombie && iterating > 0 && !Dangling(saved, list, iterating - 1)
      modifies this
      ensures Walking()
      ensures Ran(log, iterating) == Ran(old(log), iterating) + ran
      ensures Falling(ran) && forall n :: n in ran ==> n in old(list) && Matches(n, kind)
      ensures !zombie && !undefined ==> forall n :: n in old(list) && n in list && Matches(n, kind) ==> n in ran
      ensures !zombie && !undefined ==> !Dangling(saved, list, iterating - 1)
      decreases |script| - step, 2
    {
      hide Ran, Quiet, Matches, Lost, Falling;
      ran := [];
      NothingFalls();
      FirstIsLatest(list);
      var cbi := if list == [] then None else Some(list[0]);
      while cbi.Some?
        invariant Walking() && !zombie && !Dangling(saved, list, iterating - 1)
        invariant Ran(log, iterating) == Ran(old(log), iterating) + ran
        invariant Falling(ran) && forall n :: n in ran ==> n in old(list) && Matches(n, kind)
        invariant cbi.Some? ==> cbi.value in list && cbi.value in old(list)
        invariant forall n :: cbi.Some? && n in ran ==> n.id > cbi.value.id
        invariant forall n :: n in old(list) && n in list && Matches(n, kind) ==>
          n in ran || (cbi.Some? && n.id <= cbi.value.id)
        decreases if cbi.Some? then cbi.value.id + 1 else 0
      {
        var node := cbi.value;
        BehindIs(list, node);
        SameId(list, node);
        var go;
        cbi, go := Round(node, kind);
        FallingAppend(ran, node);
        if Matches(node, kind) {
          ran := ran + [node];
        }
        if !go {
          return;
        }
      }
    }

    /** One round of the loop: remembers the next node, and starts the callback if it matches */
    method Round(node: Node, kind: nat) returns (next: Option<Node>, go: bool)
      requires Valid() && freed == 0 && !zombie && iterating > 0
      requires node in list && !Dangling(saved, list, iterating - 1)
      modifies this
      ensures Walking()
      ensures Ran(log, iterating) == Ran(old(log), iterating) + if Matches(node, kind) then [node] else []
      ensures next == Behind(old(list), node)
      ensures go ==> !zombie && saved[iterating - 1] == next && !Dangling(saved, list, iterating - 1)
      ensures !go ==> zombie || undefined
      decreases |script| - step, 1
    {
      hide Falling, Ran, Matches, Lost;
      next := Behind(list, node);
      LostElsewhere(saved, saved[..iterating - 1] + [next], list);
      saved := saved[..iterating - 1] + [next];
      Log(Touched(node));
      WhoMatches(node, kind);
      if kind == ANY_KIND || node.kind == ANY_KIND || node.kind == kind {
        Log(Started(iterating, node));
        Invoke();
      }
      go := !zombie;
      if go && next.Some? && next.value !in list {
        LostSomewhere(saved, list, iterating - 1);
        undefined, go := true, false;
      }
    }

    ghost method Log(e: Event)
      requires Valid() && freed == 0 && !zombie && (e.Touched? || e.Started?)
      modifies `log
      ensures Valid() && log == old(log) + [e]
      ensures forall d: nat :: Ran(log, d) == Ran(old(log), d) + if e.Started? && e.depth == d then [e.node] else []
    {
      hide Falling, Lost;
      forall d: nat {
        RanAppend(log, e, d);
      }
      log := log + [e];
    }
  }
}
