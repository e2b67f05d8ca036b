/**
 * The lines of the bookmark file as text.  navit/bookmarks.c writes label and path between quotes as they
 * are, without escaping, and navit/attr.c reads them; this says which ones survive.
 */
module BookmarkText {
  import opened Wrappers
  import opened AttrLine

  function Quotes(v: string): nat {
    if v == "" then 0 else (if v[0] == '"' then 1 else 0) + Quotes(v[1..])
  }

  function Within(v: string): string { "\"" + v + "\"" }

  /**
   * Between quotes, a value can do without escaping: it has no backslash, every space in it is inside quotes
   * for the reader and, if more follows on the line, its own quotes come in pairs.
   */
  predicate Unharmed(v: string, more: bool) {
    && (forall k :: 0 <= k < |v| ==> v[k] != '\\' && (v[k] == ' ' ==> Quotes(v[..k]) % 2 == 0))
    && (more ==> Quotes(v) % 2 == 0)
  }

  /** The same, character by character */
  predicate Passes(v: string, quoted: bool, more: bool) {
    if v == "" then more ==> quoted
    else v[0] != '\\' && (v[0] == ' ' ==> quoted) && Passes(v[1..], quoted != (v[0] == '"'), more)
  }

  lemma {:induction false} QuotesFront(v: string, k: nat)
    requires 0 < k <= |v|
    ensures Quotes(v[..k]) == (if v[0] == '"' then 1 else 0) + Quotes(v[1..][..k - 1])
  {
    assert v[..k][1..] == v[1..][..k - 1];
  }

  lemma {:induction false} PassesIs(v: string, quoted: bool, more: bool)
    ensures Passes(v, quoted, more) <==>
      && (forall k :: 0 <= k < |v| ==> v[k] != '\\' && (v[k] == ' ' ==> (quoted <==> Quotes(v[..k]) % 2 == 0)))
      && (more ==> (quoted <==> Quotes(v) % 2 == 0))
  {
    if v != "" {
      var rest, now := v[1..], quoted != (v[0] == '"');
      PassesIs(rest, now, more);
      forall k | 0 < k < |v|
        ensures v[k] == rest[k - 1]
        ensures (quoted <==> Quotes(v[..k]) % 2 == 0) <==> (now <==> Quotes(rest[..k - 1]) % 2 == 0)
      {
        QuotesFront(v, k);
      }
      assert Quotes(v[..0]) == 0;
      if Passes(rest, now, more) {
        forall k | 0 <= k < |v|
          ensures v[k] == v[0] || (v[k] != '\\' && (v[k] == ' ' ==> (quoted <==> Quotes(v[..k]) % 2 == 0)))
        {
          assert k > 0 ==> v[k] == rest[k - 1];
        }
      }
      forall j | 0 <= j < |rest|
        ensures v[j + 1] == rest[j]
      {
      }
    }
  }

  /** The walk over a value ends behind its closing quote, and no backslash is met, just if the value passes. */
  lemma {:induction false} PassesExactly(s: string, i: nat, v: string, quoted: bool, rest: string)
    requires i <= |s| && s[i..] == v + ("\"" + rest) && (rest != "" ==> rest[0] == ' ')
    ensures ValueEnd(s, i, quoted) == (|s| - |rest|, 0) <==> Passes(v, quoted, rest != "")
    decreases |v|
  {
    var all := v + ("\"" + rest);
    assert s[i] == all[0];
    assert s[i + 1..] == s[i..][1..];
    if v == "" {
      assert s[i + 1..] == rest;
      assert rest != "" ==> s[i + 1] == rest[0];
    } else {
      assert all[1..] == v[1..] + ("\"" + rest);
      PassesExactly(s, i + 1, v[1..], quoted != (v[0] == '"'), rest);
    }
  }

  lemma {:induction false} UnescapedShort(s: string, i: nat, n: nat)
    ensures |Unescaped(s, i, n)| <= n
    decreases n
  {
    if n > 0 && i < |s| {
      UnescapedShort(s, i + 1, n - 1);
      UnescapedShort(s, i + 2, n - 1);
    }
  }

  lemma UnharmedPasses(v: string, more: bool)
    ensures Passes(v, true, more) <==> Unharmed(v, more)
  {
    PassesIs(v, true, more);
  }

  lemma WalkReadsBack(s: string, from: nat, v: string, rest: string)
    requires from <= |s| && s[from..] == Within(v) + rest && (rest != "" ==> rest[0] == ' ')
    ensures |s| - |rest| == from + |v| + 2 <= |s| && s[from] == '"' && s[from + 1..from + 1 + |v|] == v
    ensures ValueEnd(s, from, false) == (|s| - |rest|, 0) <==> Unharmed(v, rest != "")
  {
    hide ValueEnd, Passes, Unharmed;
    assert Within(v) + rest == "\"" + (v + ("\"" + rest));
    Parts(s, from, "\"", v + ("\"" + rest));
    Parts(s, from + 1, v, "\"" + rest);
    QuoteOpens(s, from);
    PassesExactly(s, from + 1, v, true, rest);
    UnharmedPasses(v, rest != "");
  }

  /** A value between quotes is read as it was written just if it is unharmed. */
  lemma ValueReadsBack(s: string, start: nat, eq: nat, v: string, rest: string)
    requires start <= eq < |s| && s[eq + 1..] == Within(v) + rest && (rest != "" ==> rest[0] == ' ')
    ensures var e := ValueEnd(s, eq + 1, false);
      ValueOf(s, Span(start, eq, e.0, e.1)) == Found(s[start..eq], v, |s| - |rest|) <==> Unharmed(v, rest != "")
  {
    hide ValueEnd, Unescaped, Unharmed, Within;
    var e := ValueEnd(s, eq + 1, false);
    WalkReadsBack(s, eq + 1, v, rest);
    if e.0 == |s| - |rest| && 0 < e.1 <= |v| {
      UnescapedShort(s, eq + 2, |v| - e.1);
    }
  }

  function Quoted(name: string, v: string): string {
    name + "=" + Within(v)
  }

  ghost predicate IsName(name: string) {
    '=' !in name && (name != "" ==> name[0] != ' ')
  }

  /** Where an attribute printed so begins and ends */
  lemma QuotedFound(s: string, i: nat, name: string, v: string, rest: string)
    requires i <= |s| && IsName(name) && (rest != "" ==> rest[0] == ' ')
    requires s[i..] == Quoted(name, v) + rest || s[i..] == " " + (Quoted(name, v) + rest)
    ensures var n := NextSpan(s, i);
      && n.Some? && s[n.value.start..n.value.eq] == name
      && (ValueOf(s, n.value) == Found(name, v, |s| - |rest|) <==> Unharmed(v, rest != ""))
  {
    hide ValueEnd, ValueOf, Unharmed, SkipSpaces, EqualsAt, Within;
    var text, value := Quoted(name, v) + rest, Within(v) + rest;
    assert text == name + "=" + value == name + ("=" + value);
    assert text[0] == if name == "" then '=' else name[0];
    TextFound(s, i, text);
    var start := SkipSpaces(s, i);
    EqualsBehind(s, start, name, value);
    Parts(s, start, name + "=", value);
    Parts(s, start, name, "=" + value);
    ValueReadsBack(s, start, start + |name|, v, rest);
  }

  lemma LookupIs(s: string, name: string, i: nat)
    requires i <= |s| && NextSpan(s, i).Some?
    ensures var n := NextSpan(s, i).value;
      Lookup(s, Some(name), i) == if name == s[n.start..n.eq] then ValueOf(s, n) else Lookup(s, Some(name), n.end)
  {
    hide NextSpan, ValueOf;
  }

  lemma FoundAt(s: string, n: Span, name: string, v: string, end: nat)
    requires n.start <= n.eq < n.end <= |s| && ValueOf(s, n) == Found(name, v, end)
    ensures n.end == end
  {
  }

  function PathText(path: string): string { " " + Quoted("path", path) }

  function LabelText(title: string, path: string): string { " " + Quoted("label", title) + PathText(path) }

  /** The attributes of a line of the file: the type, which needs no quotes, the label and the path */
  function Text(kind: string, title: string, path: string): string {
    Printed(Pair("type", kind, false)) + LabelText(title, path)
  }

  /** A line gives back label and path just if both are unharmed. */
  lemma LineReadsBack(kind: string, title: string, path: string)
    requires Writable(Pair("type", kind, false))
    ensures var s := Text(kind, title, path);
      && Lookup(s, Some("label"), 0) == Found("label", title, |s| - |PathText(path)|)
      && Lookup(s, Some("path"), 0) == Found("path", path, |s|)
      <==> Unharmed(title, true) && Unharmed(path, false)
  {
    hide NextSpan, ValueOf, Printed, Unharmed, Writable, Lookup, Quoted;
    var s, p := Text(kind, title, path), Pair("type", kind, false);
    assert s[0..] == s;
    ReadOne(s, 0, p, LabelText(title, path));
    BehindType(kind, title, path);
    var i, j := |Printed(p)|, |s| - |PathText(path)|;
    FoundAt(s, NextSpan(s, 0).value, "type", kind, i);
    assert LabelText(title, path) == " " + (Quoted("label", title) + PathText(path));
    QuotedFound(s, i, "label", title, PathText(path));
    LookupIs(s, "label", 0);
    LookupIs(s, "label", i);
    if Unharmed(title, true) {
      FoundAt(s, NextSpan(s, i).value, "label", title, j);
      QuotedFound(s, j, "path", path, "");
      LookupIs(s, "path", 0);
      LookupIs(s, "path", i);
      LookupIs(s, "path", j);
    }
  }

  lemma BehindType(kind: string, title: string, path: string)
    ensures var s, i := Text(kind, title, path), |Printed(Pair("type", kind, false))|;
      && i == |s| - |LabelText(title, path)| && s[i..] == LabelText(title, path)
      && s[|s| - |PathText(path)|..] == PathText(path) == " " + (Quoted("path", path) + "")
  {
    hide Printed, Quoted;
  }

  /** A label that does not survive: a\b comes back as ab. */
  lemma BackslashLost()
    ensures Within("a\\b") == "\"a\\b\"" && !Unharmed("a\\b", true)
    ensures Lookup("label=\"a\\b\"", Some("label"), 0) == Found("label", "ab", 11)
  {
    var s := "label=\"a\\b\"";
    assert "a\\b"[1] == '\\';
    assert EqualsAt(s, 0) == EqualsAt(s, 3) == 5;
    assert ValueEnd(s, 9 + 1, true) == ValueEnd(s, 11, false) == (11, 0);
    assert ValueEnd(s, 8, true) == (11, 1);
    assert ValueEnd(s, 6, false) == ValueEnd(s, 7, true) == (11, 1);
    assert NextSpan(s, 0) == Some(Span(0, 5, 11, 1)) && s[0..5] == "label";
    assert Unescaped(s, 8, 1) == ['b'] + Unescaped(s, 10, 0);
    assert Unescaped(s, 7, 2) == "ab";
  }
}
