/**
 * The bookmark file of navit/bookmarks.c as text: what loading and storing make of the lines as they are
 * printed and read.
 */
module BookmarkFile {
  import opened Wrappers
  import opened Coords
  import opened AttrLine
  import BookmarkLines
  import opened BookmarkText

  /** A line of the file: a place, and the text with the attributes */
  datatype Row = Row(c: Coord, text: string)

  function KindName(kind: BookmarkLines.Kind): string {
    match kind
    case Bookmark => "bookmark"
    case Folder => "bookmark_folder"
    case OtherKind => "none"
  }

  function KindOf(name: string): BookmarkLines.Kind {
    if name == "bookmark" then BookmarkLines.Bookmark
    else if name == "bookmark_folder" then BookmarkLines.Folder
    else BookmarkLines.OtherKind
  }

  function Attribute(text: string, name: string): Option<string> {
    match Lookup(text, Some(name), 0)
    case Found(_, value, _) => Some(value)
    case _ => None
  }

  /** What the map makes of a row; rows without a type are passed over. */
  function ReadRow(row: Row): BookmarkLines.Line {
    var kind, title := Attribute(row.text, "type"), Attribute(row.text, "label");
    BookmarkLines.Line(if kind.Some? then KindOf(kind.value) else BookmarkLines.OtherKind, Attribute(row.text, "path"),
               if title.Some? then title.value else "", row.c)
  }

  function RowOf(l: BookmarkLines.Line): Row {
    Row(l.c, Text(KindName(l.kind), l.name, if l.path.Some? then l.path.value else ""))
  }

  function ReadRows(rows: seq<Row>): seq<BookmarkLines.Line> {
    seq(|rows|, i requires 0 <= i < |rows| => ReadRow(rows[i]))
  }

  function RowsOf(lines: seq<BookmarkLines.Line>): seq<Row> {
    seq(|lines|, i requires 0 <= i < |lines| => RowOf(lines[i]))
  }

  /** The line is about a bookmark or folder with a path. */
  predicate Listed(l: BookmarkLines.Line) {
    l.kind != BookmarkLines.OtherKind && l.path.Some?
  }

  /** Label and path can do without escaping. */
  predicate Survives(l: BookmarkLines.Line) {
    Unharmed(l.name, true) && (l.path.Some? ==> Unharmed(l.path.value, false))
  }

  lemma NamesAreBare(kind: BookmarkLines.Kind)
    ensures Writable(Pair("type", KindName(kind), false))
  {
  }

  lemma TypeReadsBack(kind: string, title: string, path: string)
    requires Writable(Pair("type", kind, false))
    ensures Attribute(Text(kind, title, path), "type") == Some(kind)
  {
    hide NextSpan, ValueOf, Printed, Writable, Lookup, Quoted;
    var s, p := Text(kind, title, path), Pair("type", kind, false);
    assert s[0..] == s;
    ReadOne(s, 0, p, LabelText(title, path));
    LookupIs(s, "type", 0);
  }

  /** A line that survives is read as it was printed. */
  lemma RowReadsBack(l: BookmarkLines.Line)
    requires Listed(l) && Survives(l)
    ensures ReadRow(RowOf(l)) == l
  {
    hide Lookup, Text, Unharmed, Writable;
    NamesAreBare(l.kind);
    TypeReadsBack(KindName(l.kind), l.name, l.path.value);
    LineReadsBack(KindName(l.kind), l.name, l.path.value);
  }

  lemma RowsReadBack(lines: seq<BookmarkLines.Line>)
    requires forall i :: 0 <= i < |lines| ==> Listed(lines[i]) && Survives(lines[i])
    ensures ReadRows(RowsOf(lines)) == lines
  {
    hide ReadRow, RowOf, Listed, Survives;
    forall i | 0 <= i < |lines|
      ensures ReadRow(RowOf(lines[i])) == lines[i]
    {
      RowReadsBack(lines[i]);
    }
  }

  lemma StoredAreListed(lines: seq<BookmarkLines.Line>)
    ensures forall i :: 0 <= i < |BookmarkLines.Rewritten(lines)| ==> Listed(BookmarkLines.Rewritten(lines)[i])
  {
    hide BookmarkLines.Join;
    var entries := BookmarkLines.Entries(lines);
    BookmarkLines.LoadedProper(entries);
    BookmarkLines.LoadedGrown(entries);
    BookmarkLines.StoredTidy(BookmarkLines.Loaded(entries));
  }

  /** The file after it was loaded and stored */
  function Rewritten(rows: seq<Row>): seq<Row> {
    RowsOf(BookmarkLines.Rewritten(ReadRows(rows)))
  }

  /** Loading and storing a file once more leaves it as it is, if what was stored survives being printed. */
  lemma RewritingIsIdempotent(rows: seq<Row>)
    requires forall l :: l in BookmarkLines.Rewritten(ReadRows(rows)) ==> Survives(l)
    ensures ReadRows(Rewritten(rows)) == BookmarkLines.Rewritten(ReadRows(rows))
    ensures Rewritten(Rewritten(rows)) == Rewritten(rows)
  {
    hide ReadRows, RowsOf, Listed, Survives, BookmarkLines.Rewritten;
    StoredAreListed(ReadRows(rows));
    RowsReadBack(BookmarkLines.Rewritten(ReadRows(rows)));
    BookmarkLines.RewritingIsIdempotent(ReadRows(rows));
  }
}
