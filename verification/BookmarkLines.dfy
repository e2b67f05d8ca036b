/**
 * The bookmark file of navit/bookmarks.c as lists of entries: what loading makes of the lines, and
 * which lines storing writes.
 */
module BookmarkLines {
  import opened Coords
  import opened Wrappers

  datatype Kind = Bookmark | Folder | OtherKind

  /** A component of a path holds no slash. */
  predicate Plain(s: string) { '/' !in s }

  /** A bookmark or folder with the labels from the root down to it. */
  datatype Entry = Entry(kind: Kind, path: seq<string>, c: Coord)

  /** What a line of the file, or an item of the map, tells. */
  datatype Line = Line(kind: Kind, path: Option<string>, name: string, c: Coord)

  // ----------------------------------------------------------------- paths

  function SlashAt(s: string): (k: nat)
    ensures k <= |s| && Plain(s[..k]) && (k < |s| ==> s[k] == '/')
  {
    if s == "" || s[0] == '/' then 0 else 1 + SlashAt(s[1..])
  }

  function Split(s: string): (path: seq<string>)
    ensures path != [] && forall i :: 0 <= i < |path| ==> Plain(path[i])
    decreases |s|
  {
    var k := SlashAt(s);
    if k == |s| then [s] else [s[..k]] + Split(s[k + 1..])
  }

  /** The first label of a name that has more than one */
  lemma {:induction false} SplitFirst(s: string)
    requires SlashAt(s) < |s|
    ensures Split(s) == [s[..SlashAt(s)]] + Split(s[SlashAt(s) + 1..])
  {
    hide SlashAt, Plain;
  }

  lemma {:induction false} SplitOne(s: string)
    requires SlashAt(s) >= |s|
    ensures Plain(s) && Split(s) == [s]
  {
    hide SlashAt;
    assert s[..|s|] == s;
  }

  function Join(path: seq<string>): string
    requires path != []
  {
    if |path| == 1 then path[0] else path[0] + "/" + Join(path[1..])
  }

  lemma JoinCons(a: string, path: seq<string>)
    requires path != []
    ensures Join([a] + path) == a + "/" + Join(path)
  {
    assert ([a] + path)[1..] == path;
  }

  lemma {:induction false} JoinSplit(s: string)
    ensures Join(Split(s)) == s
    decreases |s|
  {
    hide Join, SlashAt;
    var k := SlashAt(s);
    if k < |s| {
      JoinSplit(s[k + 1..]);
      JoinCons(s[..k], Split(s[k + 1..]));
      assert s == s[..k] + "/" + s[k + 1..];
    } else {
      JoinOne(s);
    }
  }

  lemma JoinOne(s: string)
    ensures Join([s]) == s
  {
  }

  lemma SlashAtBehind(a: string, b: string)
    requires Plain(a)
    ensures SlashAt(a + "/" + b) == |a|
  {
    if a != "" {
      assert (a + "/" + b)[1..] == a[1..] + "/" + b;
      SlashAtBehind(a[1..], b);
    }
  }

  lemma SlashAtNone(a: string)
    requires Plain(a)
    ensures SlashAt(a) == |a|
  {
  }

  lemma {:induction false} SplitJoin(path: seq<string>)
    requires path != [] && forall i :: 0 <= i < |path| ==> Plain(path[i])
    ensures Split(Join(path)) == path
  {
    if |path| == 1 {
      SlashAtNone(path[0]);
      assert path == [path[0]];
    } else {
      var a, b := path[0], Join(path[1..]);
      SlashAtBehind(a, b);
      assert (a + "/" + b)[..|a|] == a && (a + "/" + b)[|a| + 1..] == b;
      SplitJoin(path[1..]);
    }
  }

  /** Different paths have different names, so names may stand for paths. */
  lemma JoinInjective(p: seq<string>, q: seq<string>)
    requires p != [] && forall i :: 0 <= i < |p| ==> Plain(p[i])
    requires q != [] && forall i :: 0 <= i < |q| ==> Plain(q[i])
    requires Join(p) == Join(q)
    ensures p == q
  {
    SplitJoin(p);
    SplitJoin(q);
  }

  // --------------------------------------------------------------- loading

  predicate Known(listing: seq<Entry>, path: seq<string>) {
    exists e :: e in listing && e.path == path
  }

  /** The proper prefixes of a path from length k on become folders unless something has that path. */
  function WithFolders(listing: seq<Entry>, path: seq<string>, k: nat): (r: seq<Entry>)
    requires 1 <= k <= |path|
    ensures listing <= r
    decreases |path| - k
  {
    if k == |path| then listing
    else if Known(listing, path[..k]) then WithFolders(listing, path, k + 1)
    else WithFolders(listing + [Entry(Folder, path[..k], Coord(0, 0))], path, k + 1)
  }

  function LoadEntry(listing: seq<Entry>, e: Entry): (r: seq<Entry>)
    requires e.path != []
  {
    WithFolders(listing, e.path, 1) + [e]
  }

  predicate Proper(entries: seq<Entry>) {
    forall i :: 0 <= i < |entries| ==>
      && entries[i].kind != OtherKind && entries[i].path != []
      && forall j :: 0 <= j < |entries[i].path| ==> Plain(entries[i].path[j])
  }

  /** What a file with these entries is loaded to. */
  function Loaded(entries: seq<Entry>): (listing: seq<Entry>)
    requires Proper(entries)
  {
    if entries == [] then [] else LoadEntry(Loaded(entries[..|entries| - 1]), entries[|entries| - 1])
  }

  /** The entries that a sequence of lines is about. */
  function Entries(lines: seq<Line>): (entries: seq<Entry>)
    ensures Proper(entries)
  {
    if lines == [] then []
    else
      var init, l := Entries(lines[..|lines| - 1]), lines[|lines| - 1];
      if l.kind == OtherKind then init
      else init + [Entry(l.kind, Split(if l.path.Some? then l.path.value else l.name), l.c)]
  }

  // --------------------------------------------------------------- storing

  /** The entry that the line for an entry stands for: a folder is written without its place. */
  function Written(e: Entry): Entry {
    if e.kind == Folder then Entry(Folder, e.path, Coord(0, 0)) else e
  }

  function LineOf(e: Entry): Line
    requires e.path != []
  {
    var w := Written(e);
    Line(w.kind, Some(Join(w.path)), w.path[|w.path| - 1], w.c)
  }

  /** Of the entries with one path, the first. */
  function Stored(listing: seq<Entry>): (r: seq<Entry>)
    ensures Proper(listing) ==> Proper(r)
  {
    if listing == [] then []
    else
      var init, e := listing[..|listing| - 1], listing[|listing| - 1];
      if Known(init, e.path) then Stored(init) else Stored(init) + [Written(e)]
  }

  function LinesOf(listing: seq<Entry>): (lines: seq<Line>)
    requires Proper(listing)
    ensures |lines| == |listing| && forall i :: 0 <= i < |lines| ==> lines[i] == LineOf(listing[i])
  {
    if listing == [] then [] else LinesOf(listing[..|listing| - 1]) + [LineOf(listing[|listing| - 1])]
  }

  /** Storing one entry more adds its line unless its path was stored. */
  lemma {:induction false} StoredAppend(listing: seq<Entry>, d: nat)
    requires Proper(listing) && d < |listing|
    ensures LinesOf(Stored(listing[..d + 1])) ==
      LinesOf(Stored(listing[..d])) + if Known(listing[..d], listing[d].path) then [] else [LineOf(listing[d])]
  {
    hide Known, Join;
    var e, more := listing[d], Stored(listing[..d]);
    assert listing[..d + 1][..d] == listing[..d];
    assert LineOf(Written(e)) == LineOf(e);
    assert (more + [Written(e)])[..|more|] == more;
  }

  // -------------------------------------------------------------- theorems

  /** Every entry has all its folders listed before it. */
  ghost predicate Grown(listing: seq<Entry>) {
    forall i, k :: 0 <= i < |listing| && 1 <= k < |listing[i].path| ==> Known(listing[..i], listing[i].path[..k])
  }

  lemma KnownInLonger(a: seq<Entry>, b: seq<Entry>, path: seq<string>)
    requires a <= b && Known(a, path)
    ensures Known(b, path)
  {
    var e :| e in a && e.path == path;
    assert e in b;
  }

  lemma LastKnown(listing: seq<Entry>)
    requires listing != []
    ensures Known(listing, listing[|listing| - 1].path)
  {
    assert listing[|listing| - 1] in listing;
  }

  lemma GrownAppend(listing: seq<Entry>, e: Entry)
    requires Grown(listing)
    requires forall k :: 1 <= k < |e.path| ==> Known(listing, e.path[..k])
    ensures Grown(listing + [e])
  {
    var l := listing + [e];
    forall i, k | 0 <= i < |l| && 1 <= k < |l[i].path|
      ensures Known(l[..i], l[i].path[..k])
    {
      assert l[..i] == if i < |listing| then listing[..i] else listing;
    }
  }

  lemma GrownInit(listing: seq<Entry>)
    requires listing != [] && Grown(listing)
    ensures var n := |listing| - 1;
      && Grown(listing[..n])
      && forall k :: 1 <= k < |listing[n].path| ==> Known(listing[..n], listing[n].path[..k])
  {
    hide Known;
    var n := |listing| - 1;
    var init := listing[..n];
    forall i, k | 0 <= i < |init| && 1 <= k < |init[i].path|
      ensures Known(init[..i], init[i].path[..k])
    {
      assert init[..i] == listing[..i] && init[i] == listing[i];
    }
  }

  lemma {:induction false} FoldersGrow(listing: seq<Entry>, path: seq<string>, k: nat)
    requires Grown(listing) && 1 <= k <= |path|
    requires forall j :: 1 <= j < k ==> Known(listing, path[..j])
    ensures Grown(WithFolders(listing, path, k))
    ensures forall j :: 1 <= j < |path| ==> Known(WithFolders(listing, path, k), path[..j])
    decreases |path| - k
  {
    hide Known, Grown;
    if k < |path| {
      var more := listing;
      if !Known(listing, path[..k]) {
        var folder := Entry(Folder, path[..k], Coord(0, 0));
        more := listing + [folder];
        LastKnown(more);
        forall j | 1 <= j < k
          ensures Known(more, path[..j]) && folder.path[..j] == path[..j]
        {
          KnownInLonger(listing, more, path[..j]);
        }
        GrownAppend(listing, folder);
      }
      FoldersGrow(more, path, k + 1);
    }
  }

  /** Loading lists every folder before what is in it. */
  lemma {:induction false} LoadedGrown(entries: seq<Entry>)
    requires Proper(entries)
    ensures Grown(Loaded(entries))
  {
    if entries != [] {
      var init, e := entries[..|entries| - 1], entries[|entries| - 1];
      LoadedGrown(init);
      FoldersGrow(Loaded(init), e.path, 1);
      GrownAppend(WithFolders(Loaded(init), e.path, 1), e);
    }
  }

  /** Where in the listing the entries of the file are. */
  function Places(entries: seq<Entry>): (at: seq<nat>)
    requires Proper(entries)
    ensures |at| == |entries|
  {
    if entries == [] then []
    else Places(entries[..|entries| - 1]) + [|Loaded(entries)| - 1]
  }

  /** Only empty folders that some entry of the file needs are added. */
  ghost predicate NeededFolder(e: Entry, entries: seq<Entry>) {
    && e.kind == Folder && e.c == Coord(0, 0)
    && exists i :: 0 <= i < |entries| && e.path != [] && e.path < entries[i].path
  }

  lemma {:induction false} FoldersAdded(listing: seq<Entry>, path: seq<string>, k: nat, i: nat)
    requires 1 <= k <= |path| && |listing| <= i < |WithFolders(listing, path, k)|
    ensures var e := WithFolders(listing, path, k)[i];
      e.kind == Folder && e.c == Coord(0, 0) && e.path != [] && e.path < path
    decreases |path| - k
  {
    if k < |path| {
      var folder := Entry(Folder, path[..k], Coord(0, 0));
      if Known(listing, path[..k]) {
        FoldersAdded(listing, path, k + 1, i);
      } else if i == |listing| {
        assert WithFolders(listing + [folder], path, k + 1)[i] == (listing + [folder])[i];
      } else {
        FoldersAdded(listing + [folder], path, k + 1, i);
      }
    }
  }

  lemma NeededByMore(e: Entry, entries: seq<Entry>, more: seq<Entry>)
    requires NeededFolder(e, entries) && entries <= more
    ensures NeededFolder(e, more)
  {
    var i :| 0 <= i < |entries| && e.path != [] && e.path < entries[i].path;
    assert more[i] == entries[i];
  }

  /** The listing holds the entries of the file, in their order. */
  lemma {:induction false} LoadedKeepsEntries(entries: seq<Entry>)
    requires Proper(entries)
    ensures var l, at := Loaded(entries), Places(entries);
      && (forall i :: 0 <= i < |at| ==> at[i] < |l| && l[at[i]] == entries[i])
      && (forall i, j :: 0 <= i < j < |at| ==> at[i] < at[j])
  {
    if entries != [] {
      hide WithFolders;
      LoadedKeepsEntries(entries[..|entries| - 1]);
    }
  }

  /** All else in the listing is folders that they need. */
  lemma {:induction false} LoadedAddsFolders(entries: seq<Entry>)
    requires Proper(entries)
    ensures var l, at := Loaded(entries), Places(entries);
      forall k :: 0 <= k < |l| && k !in at ==> NeededFolder(l[k], entries)
  {
    if entries != [] {
      hide WithFolders;
      var n := |entries| - 1;
      var init, e := entries[..n], entries[n];
      LoadedAddsFolders(init);
      var l, at, grown := Loaded(entries), Places(entries), WithFolders(Loaded(init), e.path, 1);
      assert at[n] == |l| - 1 == |grown|;
      forall k | 0 <= k < |l| && k !in at
        ensures NeededFolder(l[k], entries)
      {
        assert k != at[n] && l[k] == grown[k];
        if k < |Loaded(init)| {
          assert forall i :: 0 <= i < n ==> Places(init)[i] == at[i];
          assert k !in Places(init) && l[k] == Loaded(init)[k];
          assert NeededFolder(Loaded(init)[k], init);
          NeededByMore(l[k], init, entries);
        } else {
          FoldersAdded(Loaded(init), e.path, 1, k);
          assert l[k].path < entries[n].path;
        }
      }
    }
  }

  lemma {:induction false} StoredKnows(listing: seq<Entry>, path: seq<string>)
    ensures Known(Stored(listing), path) <==> Known(listing, path)
  {
    if listing != [] {
      var init, e := listing[..|listing| - 1], listing[|listing| - 1];
      StoredKnows(init, path);
      StoredKnows(init, e.path);
      assert listing == init + [e];
      if Known(init, e.path) {
        assert Known(listing, path) <==> Known(init, path);
      } else {
        var s := Stored(init);
        assert Written(e) in s + [Written(e)];
        assert Known(s + [Written(e)], path) <==> Known(s, path) || e.path == path;
        assert Known(listing, path) <==> Known(init, path) || e.path == path;
      }
    }
  }

  /** No path twice, and folders have no place. */
  ghost predicate Tidy(entries: seq<Entry>) {
    && (forall i, j :: 0 <= i < j < |entries| ==> entries[i].path != entries[j].path)
    && (forall i :: 0 <= i < |entries| ==> Written(entries[i]) == entries[i])
  }

  lemma TidyAppend(entries: seq<Entry>, e: Entry)
    requires Tidy(entries) && !Known(entries, e.path) && Written(e) == e
    ensures Tidy(entries + [e])
  {
    forall i | 0 <= i < |entries|
      ensures entries[i].path != e.path
    {
      assert entries[i] in entries;
    }
  }

  lemma NothingIsTidy()
    ensures Grown([]) && Tidy([])
  {
  }

  /** Storing tidies, and keeps folders before what is in them. */
  lemma {:induction false} StoredTidy(listing: seq<Entry>)
    requires Proper(listing) && Grown(listing)
    ensures Proper(Stored(listing)) && Tidy(Stored(listing)) && Grown(Stored(listing))
  {
    hide Known, Grown, Tidy;
    if listing == [] {
      NothingIsTidy();
    } else {
      var n := |listing| - 1;
      var init, e := listing[..n], listing[n];
      GrownInit(listing);
      StoredTidy(init);
      StoredKnows(init, e.path);
      if !Known(init, e.path) {
        forall k | 1 <= k < |e.path|
          ensures Known(Stored(init), e.path[..k])
        {
          StoredKnows(init, e.path[..k]);
        }
        GrownAppend(Stored(init), Written(e));
        TidyAppend(Stored(init), Written(e));
      }
    }
  }

  lemma {:induction false} NoFoldersMissing(listing: seq<Entry>, path: seq<string>, k: nat)
    requires 1 <= k <= |path| && forall j :: k <= j < |path| ==> Known(listing, path[..j])
    ensures WithFolders(listing, path, k) == listing
    decreases |path| - k
  {
    if k < |path| {
      NoFoldersMissing(listing, path, k + 1);
    }
  }

  /** Entries with all their folders before them are loaded as they are. */
  lemma {:induction false} LoadedOfGrown(entries: seq<Entry>)
    requires Proper(entries) && Grown(entries)
    ensures Loaded(entries) == entries
  {
    hide Known, Grown, WithFolders;
    if entries != [] {
      var n := |entries| - 1;
      var init, e := entries[..n], entries[n];
      GrownInit(entries);
      LoadedOfGrown(init);
      NoFoldersMissing(init, e.path, 1);
    }
  }

  lemma {:induction false} StoredOfTidy(entries: seq<Entry>)
    requires Tidy(entries)
    ensures Stored(entries) == entries
  {
    if entries != [] {
      var n := |entries| - 1;
      var init, e := entries[..n], entries[n];
      StoredOfTidy(init);
      forall f | f in init
        ensures f.path != e.path
      {
        var i :| 0 <= i < n && init[i] == f;
        assert entries[i].path != entries[n].path;
      }
    }
  }

  lemma LoadedProper(entries: seq<Entry>)
    requires Proper(entries)
    ensures Proper(Loaded(entries))
  {
    LoadedKeepsEntries(entries);
    LoadedAddsFolders(entries);
    var l, at := Loaded(entries), Places(entries);
    forall k | 0 <= k < |l|
      ensures l[k].kind != OtherKind && l[k].path != [] && forall j :: 0 <= j < |l[k].path| ==> Plain(l[k].path[j])
    {
      if k in at {
        var i :| 0 <= i < |at| && at[i] == k;
      } else {
        var i :| 0 <= i < |entries| && l[k].path != [] && l[k].path < entries[i].path;
        forall j | 0 <= j < |l[k].path|
          ensures Plain(l[k].path[j])
        {
          assert l[k].path[j] == entries[i].path[j];
        }
      }
    }
  }

  /** The first entry of a path is the one that is stored, and nothing else is. */
  lemma {:induction false} StoredFirst(listing: seq<Entry>, i: nat)
    requires i < |listing|
    ensures !Known(listing[..i], listing[i].path) ==> Written(listing[i]) in Stored(listing)
  {
    var n := |listing| - 1;
    var init := listing[..n];
    if i < n {
      assert init[..i] == listing[..i] && init[i] == listing[i];
      StoredFirst(init, i);
    }
  }

  lemma EntriesAppend(lines: seq<Line>, l: Line)
    requires l.kind != OtherKind && l.path.Some?
    ensures Entries(lines + [l]) == Entries(lines) + [Entry(l.kind, Split(l.path.value), l.c)]
  {
    hide Split;
    assert (lines + [l])[..|lines|] == lines;
  }

  lemma LineRead(e: Entry)
    requires e.kind != OtherKind && Written(e) == e
    requires e.path != [] && forall j :: 0 <= j < |e.path| ==> Plain(e.path[j])
    ensures var l := LineOf(e);
      l.kind != OtherKind && l.path.Some? && Entry(l.kind, Split(l.path.value), l.c) == e
  {
    SplitJoin(e.path);
  }

  lemma {:induction false} EntriesOfLines(entries: seq<Entry>)
    requires Proper(entries) && forall i :: 0 <= i < |entries| ==> Written(entries[i]) == entries[i]
    ensures Entries(LinesOf(entries)) == entries
  {
    hide Written, Split, Join, Plain, LineOf;
    if entries != [] {
      var n := |entries| - 1;
      var init, e := entries[..n], entries[n];
      EntriesOfLines(init);
      LineRead(e);
      EntriesAppend(LinesOf(init), LineOf(e));
    }
  }

  /** What a file holds after it was loaded and stored. */
  function Rewritten(lines: seq<Line>): seq<Line> {
    var listing := Loaded(Entries(lines));
    LoadedProper(Entries(lines));
    LoadedGrown(Entries(lines));
    StoredTidy(listing);
    LinesOf(Stored(listing))
  }

  /** Loading and storing once more changes nothing. */
  lemma RewritingIsIdempotent(lines: seq<Line>)
    ensures Rewritten(Rewritten(lines)) == Rewritten(lines)
  {
    var entries := Entries(lines);
    LoadedProper(entries);
    LoadedGrown(entries);
    StoredTidy(Loaded(entries));
    var stored := Stored(Loaded(entries));
    EntriesOfLines(stored);
    LoadedOfGrown(stored);
    StoredOfTidy(stored);
  }

  // ----------------------------------------------------------- what is kept

  /** The entry at i is the first of its path. */
  predicate FirstOfPath(listing: seq<Entry>, i: nat)
    requires i < |listing|
  {
    forall j :: 0 <= j < i ==> listing[j].path != listing[i].path
  }

  /** The line tells the full name, the label and the kind of the entry, and where it is if it is a bookmark. */
  predicate Tells(l: Line, e: Entry)
    requires e.path != []
  {
    && l.kind == e.kind && l.path == Some(Join(e.path)) && l.name == e.path[|e.path| - 1]
    && l.c == if e.kind == Bookmark then e.c else Coord(0, 0)
  }

  lemma NotKnownBefore(listing: seq<Entry>, i: nat)
    requires i < |listing|
    ensures Known(listing[..i], listing[i].path) <==> !FirstOfPath(listing, i)
  {
    if Known(listing[..i], listing[i].path) {
      var e :| e in listing[..i] && e.path == listing[i].path;
      var j :| 0 <= j < i && listing[..i][j] == e;
      assert listing[j].path == listing[i].path;
    }
    if !FirstOfPath(listing, i) {
      var j :| 0 <= j < i && listing[j].path == listing[i].path;
      assert listing[j] in listing[..i];
    }
  }

  lemma LineTells(e: Entry)
    requires e.path != [] && e.kind != OtherKind
    ensures Tells(LineOf(e), e)
  {
    hide Join;
  }

  lemma StoredLast(listing: seq<Entry>)
    requires Proper(listing) && listing != []
    ensures var n := |listing| - 1;
      LinesOf(Stored(listing)) ==
        LinesOf(Stored(listing[..n])) + if FirstOfPath(listing, n) then [LineOf(listing[n])] else []
  {
    hide LinesOf, Stored, Known, LineOf;
    StoredAppend(listing, |listing| - 1);
    NotKnownBefore(listing, |listing| - 1);
    assert listing[..|listing| - 1 + 1] == listing;
  }

  /** An entry that is the first of its path is stored in a line that tells all of it. */
  lemma {:induction false} StoredTells(listing: seq<Entry>, i: nat) returns (l: Line)
    requires Proper(listing) && i < |listing| && FirstOfPath(listing, i)
    ensures l in LinesOf(Stored(listing)) && Tells(l, listing[i])
    decreases |listing|
  {
    hide LinesOf, Stored, LineOf, Tells;
    var n := |listing| - 1;
    StoredLast(listing);
    if i < n {
      assert listing[..n][i] == listing[i];
      l := StoredTells(listing[..n], i);
    } else {
      l := LineOf(listing[n]);
      LineTells(listing[n]);
    }
  }

  /** And no other lines are stored. */
  lemma {:induction false} OnlyFirstStored(listing: seq<Entry>, l: Line) returns (i: nat)
    requires Proper(listing) && l in LinesOf(Stored(listing))
    ensures i < |listing| && FirstOfPath(listing, i) && Tells(l, listing[i])
    decreases |listing|
  {
    hide LinesOf, Stored, LineOf, Tells;
    if listing == [] {
      NothingListed();
    }
    var n := |listing| - 1;
    StoredLast(listing);
    if l in LinesOf(Stored(listing[..n])) {
      i := OnlyFirstStored(listing[..n], l);
      assert listing[..n][i] == listing[i];
    } else {
      i := n;
      LineTells(listing[n]);
    }
  }

  lemma NothingListed()
    ensures LinesOf(Stored([])) == []
  {
  }

  /** A line is about one entry: its kind and place, and the path that its path or else its label spells. */
  lemma LineIsEntry(l: Line)
    requires l.kind != OtherKind
    ensures |Entries([l])| == 1
    ensures var e := Entries([l])[0];
      e.kind == l.kind && e.c == l.c && Join(e.path) == if l.path.Some? then l.path.value else l.name
  {
    hide Split, Join;
    assert [l][..0] == [];
    JoinSplit(if l.path.Some? then l.path.value else l.name);
  }

  /** A bookmark that is the first of its path is there again, with kind and place, when the file is loaded next. */
  lemma BookmarksSurvive(lines: seq<Line>, i: nat)
    requires i < |Loaded(Entries(lines))|
    ensures var listing, again := Loaded(Entries(lines)), Loaded(Entries(Rewritten(lines)));
      FirstOfPath(listing, i) && listing[i].kind == Bookmark ==> listing[i] in again
  {
    hide Loaded, Entries, Join, LinesOf;
    var entries := Entries(lines);
    var listing := Loaded(entries);
    LoadedProper(entries);
    LoadedGrown(entries);
    StoredTidy(listing);
    EntriesOfLines(Stored(listing));
    LoadedOfGrown(Stored(listing));
    StoredFirst(listing, i);
    NotKnownBefore(listing, i);
  }
}
