/**
 * The bookmark tree of navit/bookmarks.c: built from the lines of the file by walking down from the
 * root for each, and flattened again when it is stored.
 */
module BookmarkTree {
  import opened BookmarkLines
  import opened Coords
  import opened Wrappers

  /** struct bookmark_item_priv; `iter` is an index into `children`, at its end for NULL. */
  class Item {
    const name: Option<string>
    const kind: Kind
    const c: Coord
    const parent: Item?
    ghost const path: seq<string>
    var children: seq<Item>
    var iter: nat

    constructor (kind: Kind, name: Option<string>, c: Coord, parent: Item?)
      ensures this.kind == kind && this.name == name && this.c == c && this.parent == parent
      ensures path == if parent != null && name.Some? then parent.path + [name.value] else []
      ensures children == [] && iter == 0
    {
      this.kind, this.name, this.c, this.parent := kind, name, c, parent;
      path := if parent != null && name.Some? then parent.path + [name.value] else [];
      children, iter := [], 0;
    }
  }

  ghost function EntryOf(x: Item): Entry {
    Entry(x.kind, x.path, x.c)
  }

  ghost function Listing(list: seq<Item>): (entries: seq<Entry>)
    ensures |entries| == |list|
  {
    seq(|list|, i requires 0 <= i < |list| => EntryOf(list[i]))
  }

  /** The first item with a path */
  ghost function First(list: seq<Item>, path: seq<string>): (x: Option<Item>)
    ensures x.Some? ==> x.value in list && x.value.path == path
  {
    if list == [] then None else if list[0].path == path then Some(list[0]) else First(list[1..], path)
  }

  /** Where a walk from the root along a path ends */
  ghost function Reached(list: seq<Item>, root: Item, path: seq<string>): Option<Item> {
    if path == [] then Some(root) else First(list, path)
  }

  ghost function Kids(list: seq<Item>, n: Item): (kids: seq<Item>)
    ensures forall x :: x in kids ==> x in list && x.parent == n
  {
    if list == [] then [] else (if list[0].parent == n then [list[0]] else []) + Kids(list[1..], n)
  }

  function FirstKid(kids: seq<Item>, name: string): Option<Item> {
    if kids == [] then None else if kids[0].name == Some(name) then Some(kids[0]) else FirstKid(kids[1..], name)
  }

  /** What one item of the list is like: its parent is the one that a walk along the path finds. */
  ghost predicate LinkedItem(x: Item, list: seq<Item>, root: Item) {
    && x.kind != OtherKind && x.parent != null && x.name.Some?
    && x.path == x.parent.path + [x.name.value]
    && (forall j :: 0 <= j < |x.path| ==> Plain(x.path[j]))
    && Reached(list, root, x.parent.path) == Some(x.parent)
  }

  ghost predicate Linked(list: seq<Item>, root: Item) {
    && root.parent == null && root.name == None && root.path == [] && root !in list
    && forall x :: x in list ==> LinkedItem(x, list, root)
  }

  // ---------------------------------------------------------------- lemmas

  lemma {:induction false} FirstAppend(list: seq<Item>, y: Item, path: seq<string>)
    ensures First(list + [y], path) ==
      if First(list, path).Some? then First(list, path) else if y.path == path then Some(y) else None
  {
    if list == [] {
      assert list + [y] == [y];
    } else {
      assert (list + [y])[1..] == list[1..] + [y];
      FirstAppend(list[1..], y, path);
    }
  }

  lemma {:induction false} KidsAppend(list: seq<Item>, y: Item, n: Item)
    ensures Kids(list + [y], n) == Kids(list, n) + if y.parent == n then [y] else []
  {
    if list == [] {
      assert list + [y] == [y];
    } else {
      assert (list + [y])[1..] == list[1..] + [y];
      KidsAppend(list[1..], y, n);
    }
  }

  lemma {:induction false} FirstIsKnown(list: seq<Item>, path: seq<string>)
    ensures First(list, path).Some? <==> Known(Listing(list), path)
  {
    if list != [] {
      var l, rest := Listing(list), Listing(list[1..]);
      assert l == [EntryOf(list[0])] + rest;
      FirstIsKnown(list[1..], path);
      assert Known(l, path) <==> list[0].path == path || Known(rest, path) by {
        if Known(rest, path) {
          var e :| e in rest && e.path == path;
          assert e in l;
        }
        assert list[0].path == path ==> EntryOf(list[0]) in l;
      }
    }
  }

  /** The first child with a name is the first item with the longer path. */
  lemma {:induction false} FirstKidIsFirst(list: seq<Item>, n: Item, name: string, path: seq<string>)
    requires forall x :: x in list ==> ((x.parent == n && x.name == Some(name)) <==> x.path == path)
    ensures FirstKid(Kids(list, n), name) == First(list, path)
  {
    if list != [] {
      FirstKidIsFirst(list[1..], n, name, path);
      assert list[0] in list;
      var rest := Kids(list[1..], n);
      assert ([list[0]] + rest)[1..] == rest && [] + rest == rest;
    }
  }

  lemma StepDown(list: seq<Item>, root: Item, n: Item, name: string)
    requires Linked(list, root) && Reached(list, root, n.path) == Some(n)
    ensures FirstKid(Kids(list, n), name) == First(list, n.path + [name])
  {
    var path := n.path + [name];
    forall x | x in list
      ensures (x.parent == n && x.name == Some(name)) <==> x.path == path
    {
      assert LinkedItem(x, list, root);
      if x.path == path {
        assert x.parent.path == path[..|path| - 1] == n.path;
        assert x.name.value == path[|path| - 1];
      }
    }
    FirstKidIsFirst(list, n, name, path);
  }

  lemma LinkedAppend(list: seq<Item>, root: Item, y: Item)
    requires Linked(list, root) && LinkedItem(y, list, root) && y != root
    ensures Linked(list + [y], root)
  {
    forall x | x in list + [y]
      ensures LinkedItem(x, list + [y], root)
    {
      assert LinkedItem(x, list, root);
      FirstAppend(list, y, x.parent.path);
    }
  }

  lemma ParentFirst(list: seq<Item>, root: Item, y: Item)
    requires Linked(list, root) && y != root
    requires y.kind != OtherKind && y.name.Some? && Plain(y.name.value) && y.parent != null
    requires y.parent == root || y.parent in list
    requires Reached(list, root, y.parent.path) == Some(y.parent) && y.path == y.parent.path + [y.name.value]
    ensures Linked(list + [y], root)
  {
    assert y.parent != root ==> LinkedItem(y.parent, list, root);
    LinkedAppend(list, root, y);
  }

  lemma ReachedAppend(list: seq<Item>, root: Item, y: Item, path: seq<string>)
    requires Reached(list, root, path).Some?
    ensures Reached(list + [y], root, path) == Reached(list, root, path)
  {
    FirstAppend(list, y, path);
  }

  lemma ListingProper(list: seq<Item>, root: Item)
    requires Linked(list, root)
    ensures Proper(Listing(list))
  {
    forall i | 0 <= i < |list|
      ensures var e := Listing(list)[i];
        e.kind != OtherKind && e.path != [] && forall j :: 0 <= j < |e.path| ==> Plain(e.path[j])
    {
      assert LinkedItem(list[i], list, root);
    }
  }

  lemma EmptyIsLinked(root: Item)
    requires root.parent == null && root.name == None && root.path == []
    ensures Linked([], root) && Kids([], root) == []
  {
  }

  lemma {:induction false} NoKidsYet(list: seq<Item>, n: Item)
    requires forall i :: 0 <= i < |list| ==> list[i].parent != n
    ensures Kids(list, n) == []
  {
    if list != [] {
      NoKidsYet(list[1..], n);
    }
  }

  lemma ParentListed(list: seq<Item>, root: Item, x: Item)
    requires LinkedItem(x, list, root)
    ensures x.parent == root || x.parent in list
  {
  }

  /** The full names of entries */
  ghost function Names(entries: seq<Entry>): set<string>
    requires Proper(entries)
  {
    set i | 0 <= i < |entries| :: Join(entries[i].path)
  }

  lemma NothingStored(all: seq<Entry>)
    ensures all[..0] == [] && Names([]) == {} && LinesOf(Stored([])) == []
  {
  }

  lemma NamesAppend(entries: seq<Entry>, e: Entry)
    requires Proper(entries) && Proper(entries + [e]) && e.path != []
    ensures Names(entries + [e]) == Names(entries) + {Join(e.path)}
  {
    hide Join, Plain;
    var more := entries + [e];
    forall n | n in Names(entries) + {Join(e.path)}
      ensures n in Names(more)
    {
      if n in Names(entries) {
        var i :| 0 <= i < |entries| && n == Join(entries[i].path);
        assert n == Join(more[i].path);
      } else {
        assert n == Join(more[|entries|].path);
      }
    }
  }

  /** The names seen so far tell whether a path was seen. */
  lemma StoreStep(all: seq<Entry>, d: nat)
    requires Proper(all) && d < |all|
    ensures Join(all[d].path) in Names(all[..d]) <==> Known(all[..d], all[d].path)
    ensures Names(all[..d + 1]) == Names(all[..d]) + {Join(all[d].path)}
  {
    hide Join;
    var was := all[..d];
    forall i | 0 <= i < d && Join(was[i].path) == Join(all[d].path)
      ensures was[i].path == all[d].path && was[i] in was
    {
      JoinInjective(was[i].path, all[d].path);
    }
    if Known(was, all[d].path) {
      var e :| e in was && e.path == all[d].path;
      var i :| 0 <= i < d && was[i] == e;
      assert Join(was[i].path) in Names(was);
    }
    assert all[..d + 1] == was + [all[d]];
    NamesAppend(was, all[d]);
  }

  lemma ItemFacts(x: Item, list: seq<Item>, root: Item)
    requires Linked(list, root) && x in list
    ensures x.name.Some? && x.path != [] && x.path[|x.path| - 1] == x.name.value && x.kind != OtherKind
  {
    assert LinkedItem(x, list, root);
  }

  /** The first label of a name that has more than one, behind others */
  lemma SplitFront(before: seq<string>, s: string)
    requires SlashAt(s) < |s|
    ensures var k, whole := SlashAt(s), before + Split(s);
      && Plain(s[..k]) && |whole| > |before| + 1 && whole[..|before| + 1] == before + [s[..k]]
      && before + [s[..k]] + Split(s[k + 1..]) == whole
  {
    hide SlashAt, Plain, Split;
    SplitFirst(s);
  }

  // ------------------------------------------------------------- the tree

  class Bookmarks {
    var root: Item
    var current: Item
    var list: seq<Item>
    ghost var nodes: set<Item>

    ghost predicate Valid()
      reads this, nodes
    {
      && root in nodes
      && (forall i :: 0 <= i < |list| ==> list[i] in nodes)
      && (forall x :: x in nodes ==> x == root || x in list)
      && current in nodes
      && Linked(list, root)
      && forall x :: x in nodes ==> x.children == Kids(list, x)
    }

    constructor ()
      ensures Valid() && list == [] && fresh(nodes)
    {
      var item := new Item(OtherKind, None, Coord(0, 0), null);
      root, current, list, nodes := item, item, [], {item};
    }

    /** bookmarks_move_root */
    method MoveRoot()
      requires Valid()
      modifies this, nodes
      ensures Valid() && nodes == old(nodes) && list == old(list) && root == old(root)
      ensures current == root && root.iter == 0
    {
      current := root;
      current.iter := 0;
    }

    /** bookmarks_move_up */
    method MoveUp()
      requires Valid()
      modifies this, nodes
      ensures Valid() && nodes == old(nodes) && list == old(list) && root == old(root)
      ensures current == (if old(current) == root then root else old(current).parent)
      ensures old(current) != root ==> current.path == old(current).path[..|old(current).path| - 1]
    {
      assert current != root ==> LinkedItem(current, list, root);
      if current.parent != null {
        current := current.parent;
        current.iter := 0;
      }
    }

    /** bookmarks_move_down: to the first child of that name, of whatever kind */
    method MoveDown(name: string) returns (found: bool)
      requires Valid()
      modifies this, nodes
      ensures Valid() && nodes == old(nodes) && list == old(list) && root == old(root)
      ensures found <==> FirstKid(Kids(list, old(current)), name).Some?
      ensures current == if found then FirstKid(Kids(list, old(current)), name).value else old(current)
    {
      hide Linked, Kids, FirstKid;
      var kid := FindKid(current, name);
      found := kid.Some?;
      if found {
        current := kid.value;
        current.iter := 0;
      }
    }

    /** Its loop over the children; it leaves the iterator behind where it stopped. */
    method FindKid(here: Item, name: string) returns (kid: Option<Item>)
      modifies here`iter
      ensures kid == FirstKid(here.children, name)
      ensures kid.Some? ==> kid.value in here.children
    {
      here.iter := 0;
      while here.iter < |here.children|
        invariant here.iter <= |here.children|
        invariant FirstKid(here.children[here.iter..], name) == FirstKid(here.children, name)
        decreases |here.children| - here.iter
      {
        var data := here.children[here.iter];
        if data.name == Some(name) {
          return Some(data);
        }
        here.iter := here.iter + 1;
      }
      return None;
    }

    /** A new item below the current one, at the end of its children and of the list */
    method Add(kind: Kind, name: string, c: Coord) returns (x: Item)
      requires Valid() && kind != OtherKind && Plain(name)
      requires Reached(list, root, current.path) == Some(current)
      modifies this, nodes
      ensures Valid() && fresh(nodes - old(nodes)) && root == old(root) && current == old(current)
      ensures list == old(list) + [x] && EntryOf(x) == Entry(kind, current.path + [name], c)
      ensures x in nodes && Reached(list, root, current.path) == Some(current)
    {
      hide First, Kids, Reached, Linked, LinkedItem;
      x := new Item(kind, Some(name), c, current);
      ParentFirst(list, root, x);
      FirstAppend(list, x, current.path);
      ReachedAppend(list, root, x, current.path);
      ghost var was := list;
      list := list + [x];
      nodes := nodes + {x};
      current.children := current.children + [x];
      forall n | n in nodes
        ensures n.children == Kids(list, n)
      {
        KidsAppend(was, x, n);
        if n == x {
          NoKidsYet(was, x);
        }
      }
    }

    /** The walk of bookmarks_load_hash along the folders of a path, which it makes where they are missing */
    method WalkDown(path: string) returns (rest: string)
      requires Valid() && current == root
      modifies this, nodes
      ensures Valid() && fresh(nodes - old(nodes)) && root == old(root)
      ensures Reached(list, root, current.path) == Some(current)
      ensures Plain(rest) && current.path + [rest] == Split(path)
      ensures Listing(list) == WithFolders(Listing(old(list)), Split(path), 1)
    {
      hide Valid, Linked, First, Kids, WithFolders, Known, Reached, LinkedItem, Listing, Plain, SlashAt, Split;
      rest := path;
      var pos := SlashAt(rest);
      RootPath();
      while pos < |rest|
        invariant Valid() && fresh(nodes - old(nodes)) && root == old(root)
        invariant pos == SlashAt(rest) && Reached(list, root, current.path) == Some(current)
        invariant current.path + Split(rest) == Split(path)
        invariant WithFolders(Listing(list), Split(path), |current.path| + 1) ==
          WithFolders(Listing(old(list)), Split(path), 1)
        decreases |rest|
      {
        SplitFront(current.path, rest);
        var name := rest[..pos];
        DownTo(name, Split(path));
        rest := rest[pos + 1..];
        pos := SlashAt(rest);
      }
      SplitOne(rest);
      NoFoldersMissing(Listing(list), Split(path), |current.path| + 1);
    }

    lemma RootPath()
      requires Valid()
      ensures root.path == [] && root.name == None && Reached(list, root, []) == Some(root)
    {
    }

    /** One round: down to the folder of that name, made if it is missing */
    method DownTo(name: string, ghost path: seq<string>)
      requires Valid() && Plain(name) && Reached(list, root, current.path) == Some(current)
      requires |path| > |current.path| + 1 && path[..|current.path| + 1] == current.path + [name]
      modifies this, nodes
      ensures Valid() && fresh(nodes - old(nodes)) && root == old(root)
      ensures current.path == old(current).path + [name] && Reached(list, root, current.path) == Some(current)
      ensures WithFolders(Listing(list), path, |current.path| + 1) ==
        WithFolders(Listing(old(list)), path, |current.path|)
    {
      hide Linked, First, Kids, Known;
      ghost var longer := current.path + [name];
      StepDown(list, root, current, name);
      FirstIsKnown(list, longer);
      var found := MoveDown(name);
      if !found {
        ghost var before := list;
        var folder := Add(Folder, name, Coord(0, 0));
        FirstAppend(before, folder, longer);
        assert Listing(list) == Listing(before) + [EntryOf(folder)];
        current := folder;
      }
    }

    /** One round of bookmarks_load_hash */
    method LoadLine(line: Line)
      requires Valid()
      modifies this, nodes
      ensures Valid() && fresh(nodes - old(nodes)) && root == old(root)
      ensures Proper(Listing(old(list))) && Proper(Listing(list))
      ensures var e := Entry(line.kind, Split(if line.path.Some? then line.path.value else line.name), line.c);
        Listing(list) == if line.kind == OtherKind then Listing(old(list)) else LoadEntry(Listing(old(list)), e)
    {
      hide Linked, First, Kids, WithFolders, Known;
      ListingProper(list, root);
      if line.kind == OtherKind {
        return;
      }
      MoveRoot();
      var path := if line.path.Some? then line.path.value else line.name;
      RootPath();
      var rest := WalkDown(path);
      ghost var before := list;
      var x := Add(line.kind, rest, line.c);
      assert Listing(list) == Listing(before) + [EntryOf(x)];
      ListingProper(list, root);
    }

    /** bookmarks_load_hash; storing has emptied the list before */
    method Load(lines: seq<Line>)
      requires list == []
      modifies this
      ensures Valid() && fresh(nodes) && current == root
      ensures Listing(list) == Loaded(Entries(lines))
    {
      hide Linked, First, Kids, LoadEntry;
      root := new Item(OtherKind, None, Coord(0, 0), null);
      current, nodes := root, {root};
      EmptyIsLinked(root);
      assert lines[..0] == [] && Listing([]) == [];
      for i := 0 to |lines|
        invariant Valid() && fresh(nodes)
        invariant Listing(list) == Loaded(Entries(lines[..i]))
      {
        assert lines[..i + 1][..i] == lines[..i];
        LoadLine(lines[i]);
      }
      assert lines[..|lines|] == lines;
      MoveRoot();
    }

    /** The full name of an item: the labels up to the root */
    method FullName(item: Item, ghost list: seq<Item>) returns (name: string)
      requires Linked(list, root) && item in list
      ensures item.path != [] && name == Join(item.path)
    {
      hide First, Reached;
      assert LinkedItem(item, list, root);
      name := item.name.value;
      var up := item;
      assert item.path[|up.path| - 1..] == [name];
      while up.parent != null
        invariant up == root || up in list
        invariant up.path <= item.path
        invariant name == Join(item.path[if up.path == [] then 0 else |up.path| - 1..])
        decreases |up.path|
      {
        assert LinkedItem(up, list, root);
        ParentListed(list, root, up);
        up := up.parent;
        if up.name.Some? {
          assert LinkedItem(up, list, root);
          var k := |up.path| - 1;
          assert item.path[k..][0] == up.name.value && item.path[k..][1..] == item.path[k + 1..];
          name := up.name.value + "/" + name;
        }
      }
    }

    /** bookmarks_store_bookmarks_to_file: the lines it writes; it uses up the list */
    method Store(limit: int) returns (lines: seq<Line>)
      requires Valid()
      modifies `list
      ensures Proper(Listing(old(list)))
      ensures var n := if 0 < limit <= |old(list)| then limit else |old(list)|;
        && lines == LinesOf(Stored(Listing(old(list))[..n]))
        && list == if 0 < limit <= |old(list)| then old(list)[limit - 1..] else []
    {
      hide First, Reached, LinkedItem, Kids, Listing, Stored, Join, Linked;
      ListingProper(list, root);
      ghost var all := Listing(list);
      lines := [];
      var dedup: set<string> := {};
      var left, d := limit, 0;
      NothingStored(all);
      while list != []
        invariant d <= |all| && list == old(list)[d..] && left == limit - d
        invariant 0 < limit ==> d < limit
        invariant dedup == Names(all[..d])
        invariant lines == LinesOf(Stored(all[..d]))
        decreases |list|
      {
        dedup, lines := StoreItem(list[0], old(list), d, dedup, lines);
        d := d + 1;
        if left == 1 {
          break;
        }
        left := left - 1;
        list := list[1..];
      }
      assert d == |all| ==> all[..d] == all;
    }

    /** Its round for one item: writes a line unless one with the same full name was written */
    method StoreItem(item: Item, ghost list: seq<Item>, ghost d: nat, dedup: set<string>, lines: seq<Line>)
        returns (seen: set<string>, r: seq<Line>)
      requires Linked(list, root) && Proper(Listing(list)) && d < |list| && item == list[d]
      requires dedup == Names(Listing(list)[..d])
      requires lines == LinesOf(Stored(Listing(list)[..d]))
      ensures seen == Names(Listing(list)[..d + 1])
      ensures r == LinesOf(Stored(Listing(list)[..d + 1]))
    {
      hide First, Reached, Kids, Join, Linked, LinesOf, Stored, Known, Names, Plain;
      ghost var all := Listing(list);
      StoreStep(all, d);
      StoredAppend(all, d);
      ItemFacts(item, list, root);
      seen, r := dedup, lines;
      var name := FullName(item, list);
      if name !in dedup {
        seen := dedup + {name};
        if item.kind == Bookmark {
          r := lines + [Line(Bookmark, Some(name), item.name.value, item.c)];
        }
        if item.kind == Folder {
          r := lines + [Line(Folder, Some(name), item.name.value, Coord(0, 0))];
        }
      }
    }
  }
}
