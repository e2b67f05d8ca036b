/**
 * Attributes in a line of text, `name="value"` separated by spaces: the parser of navit/attr.c with
 * the escaping of navit/util.c.
 */
module AttrLine {
  import opened Wrappers

  // --------------------------------------------------------------- writing

  predicate Special(c: char) { c == '"' || c == '\\' }

  /** str_escape in its quote mode */
  function Escape(v: string): (r: string)
    ensures |r| >= |v|
  {
    if v == "" then "" else (if Special(v[0]) then ['\\', v[0]] else [v[0]]) + Escape(v[1..])
  }

  /** Its copying loop */
  method StrEscape(v: string) returns (dst: string)
    ensures dst == Escape(v)
  {
    hide Escape;
    assert v[0..] == v;
    dst := "";
    var src := 0;
    while src < |v|
      invariant src <= |v| && dst + Escape(v[src..]) == Escape(v)
    {
      EscapeFrom(v, src);
      if Special(v[src]) {
        dst := dst + "\\";
      }
      dst := dst + [v[src]];
      src := src + 1;
    }
    EscapeEnd(v);
  }

  lemma {:induction false} EscapeFrom(v: string, i: nat)
    requires i < |v|
    ensures Escape(v[i..]) == (if Special(v[i]) then ['\\', v[i]] else [v[i]]) + Escape(v[i + 1..])
  {
    assert v[i..][1..] == v[i + 1..];
  }

  lemma EscapeEnd(v: string)
    ensures Escape(v[|v|..]) == ""
  {
  }

  /** An attribute; a value written without quotes must hold no space and nothing to escape. */
  datatype Pair = Pair(name: string, value: string, quoted: bool)

  ghost predicate Writable(p: Pair) {
    && '=' !in p.name && (p.name != "" ==> p.name[0] != ' ')
    && (!p.quoted ==> forall i :: 0 <= i < |p.value| ==> p.value[i] != ' ' && !Special(p.value[i]))
  }

  function Raw(p: Pair): string {
    if p.quoted then "\"" + Escape(p.value) + "\"" else p.value
  }

  function Printed(p: Pair): string {
    p.name + "=" + Raw(p)
  }

  /** Further attributes, each behind a space */
  function More(pairs: seq<Pair>): string {
    if pairs == [] then "" else " " + Printed(pairs[0]) + More(pairs[1..])
  }

  function Line(pairs: seq<Pair>): string {
    if pairs == [] then "" else Printed(pairs[0]) + More(pairs[1..])
  }

  // --------------------------------------------------------------- parsing

  function SkipSpaces(s: string, i: nat): (j: nat)
    requires i <= |s|
    ensures i <= j <= |s| && (j < |s| ==> s[j] != ' ')
    decreases |s| - i
  {
    if i < |s| && s[i] == ' ' then SkipSpaces(s, i + 1) else i
  }

  /** strchr for the equals sign; the end of the text if there is none */
  function EqualsAt(s: string, i: nat): (j: nat)
    requires i <= |s|
    ensures i <= j <= |s| && (j < |s| ==> s[j] == '=')
    decreases |s| - i
  {
    if i < |s| && s[i] != '=' then EqualsAt(s, i + 1) else i
  }

  /** Where a value ends, and how many backslashes in it take the next character along */
  function ValueEnd(s: string, i: nat, quoted: bool): (r: (nat, nat))
    requires i <= |s|
    ensures i <= r.0 <= |s| && r.1 <= r.0 - i
    decreases |s| - i
  {
    if i == |s| || (s[i] == ' ' && !quoted) then (i, 0)
    else if s[i] == '\\' then
      var r := ValueEnd(s, if i + 1 < |s| then i + 2 else i + 1, quoted);
      (r.0, r.1 + 1)
    else ValueEnd(s, i + 1, quoted != (s[i] == '"'))
  }

  /** One attribute of a line: where its name, its equals sign and its value begin and end */
  datatype Span = Span(start: nat, eq: nat, end: nat, escaped: nat)

  function NextSpan(s: string, i: nat): (r: Option<Span>)
    requires i <= |s|
    ensures r.Some? ==> i <= r.value.start <= r.value.eq < r.value.end <= |s|
    ensures r.Some? ==> r.value.escaped < r.value.end - r.value.eq
  {
    var start := SkipSpaces(s, i);
    if start == |s| then None
    else
      var eq := EqualsAt(s, start);
      if eq == |s| then None
      else var v := ValueEnd(s, eq + 1, false); Some(Span(start, eq, v.0, v.1))
  }

  /** strncpy_unescape: at most n characters, a backslash giving way to what it precedes */
  function Unescaped(s: string, i: nat, n: nat): string
    decreases n
  {
    if n == 0 || i >= |s| then ""
    else if s[i] == '\\' then if i + 1 < |s| then [s[i + 1]] + Unescaped(s, i + 2, n - 1) else ""
    else [s[i]] + Unescaped(s, i + 1, n - 1)
  }

  /** What a search finds; `Negative` stands for a copy with a negative length, which C makes a huge one. */
  datatype Found = NotFound | Found(name: string, value: string, next: nat) | Negative(next: nat)

  /** How many characters the copy is asked for */
  function CopyLength(s: string, p: Span): int
    requires p.eq < p.end <= |s|
  {
    (if p.eq + 1 < |s| && s[p.eq + 1] == '"' then p.end - p.eq - 3 else p.end - p.eq - 1) - p.escaped
  }

  function ValueOf(s: string, p: Span): Found
    requires p.start <= p.eq < p.end <= |s|
  {
    var from := if p.eq + 1 < |s| && s[p.eq + 1] == '"' then p.eq + 2 else p.eq + 1;
    var len := CopyLength(s, p);
    if len < 0 then Negative(p.end)
    else
      var value := if p.escaped > 0 then Unescaped(s, from, len) else s[from..from + len];
      Found(s[p.start..p.eq], value, p.end)
  }

  /** attr_from_line: the first attribute of that name, or the first at all */
  function Lookup(s: string, name: Option<string>, i: nat): (r: Found)
    requires i <= |s|
    decreases |s| - i
  {
    match NextSpan(s, i)
    case None => NotFound
    case Some(p) =>
      if name == None || name == Some(s[p.start..p.eq]) then ValueOf(s, p) else Lookup(s, name, p.end)
  }

  // ------------------------------------------------------------ the parser

  method AttrFromLine(s: string, name: Option<string>, pos: nat) returns (r: Found)
    requires pos <= |s|
    ensures r == Lookup(s, name, pos)
  {
    hide ValueEnd, ValueOf, SkipSpaces, EqualsAt;
    var p := pos;
    while true
      invariant p <= |s| && Lookup(s, name, p) == Lookup(s, name, pos)
      decreases |s| - p
    {
      var start := SkipBlanks(s, p);
      if start == |s| {
        return NotFound;
      }
      var eq := FindEquals(s, start);
      if eq == |s| {
        return NotFound;
      }
      var escaped;
      p, escaped := WalkValue(s, eq + 1);
      if name == None || name == Some(s[start..eq]) {
        r := CopyValue(s, Span(start, eq, p, escaped));
        return;
      }
    }
  }

  method SkipBlanks(s: string, i: nat) returns (p: nat)
    requires i <= |s|
    ensures p == SkipSpaces(s, i)
  {
    p := i;
    while p < |s| && s[p] == ' '
      invariant p <= |s| && SkipSpaces(s, p) == SkipSpaces(s, i)
    {
      p := p + 1;
    }
  }

  method FindEquals(s: string, i: nat) returns (e: nat)
    requires i <= |s|
    ensures e == EqualsAt(s, i)
  {
    e := i;
    while e < |s| && s[e] != '='
      invariant e <= |s| && EqualsAt(s, e) == EqualsAt(s, i)
    {
      e := e + 1;
    }
  }

  method WalkValue(s: string, i: nat) returns (p: nat, escaped: nat)
    requires i <= |s|
    ensures (p, escaped) == ValueEnd(s, i, false)
  {
    p, escaped := i, 0;
    var quoted := false;
    while p < |s| && (s[p] != ' ' || quoted)
      invariant p <= |s|
      invariant var r := ValueEnd(s, p, quoted); (r.0, escaped + r.1) == ValueEnd(s, i, false)
      decreases |s| - p
    {
      if s[p] == '"' {
        quoted := !quoted;
      }
      if s[p] == '\\' {
        escaped := escaped + 1;
        if p + 1 < |s| {
          p := p + 1;
        }
      }
      p := p + 1;
    }
  }

  method CopyValue(s: string, p: Span) returns (r: Found)
    requires p.start <= p.eq < p.end <= |s|
    ensures r == ValueOf(s, p)
  {
    hide Unescaped, SkipSpaces, EqualsAt, ValueEnd;
    var from, len: int := p.eq + 1, p.end - p.eq - 1;
    if from < |s| && s[from] == '"' {
      from, len := from + 1, len - 2;
    }
    if len - p.escaped < 0 {
      return Negative(p.end);
    }
    var value: string;
    if p.escaped > 0 {
      value := Unescape(s, from, len - p.escaped);
    } else {
      value := s[from..from + len];
    }
    r := Found(s[p.start..p.eq], value, p.end);
  }

  /** strncpy_unescape */
  method Unescape(s: string, from: nat, n: nat) returns (dest: string)
    ensures dest == Unescaped(s, from, n)
  {
    dest := "";
    var src: nat := from;
    while |dest| < n && src < |s|
      invariant from <= src && |dest| <= n
      invariant dest + Unescaped(s, src, n - |dest|) == Unescaped(s, from, n)
    {
      if s[src] == '\\' {
        src := src + 1;
        if src == |s| {
          return;
        }
      }
      dest := dest + [s[src]];
      src := src + 1;
    }
  }

  // ------------------------------------------------------------ round trip

  lemma {:induction false} SpacesSkipped(s: string, i: nat, rest: string)
    requires i <= |s| && (s[i..] == rest || s[i..] == " " + rest) && (rest != "" ==> rest[0] != ' ')
    ensures SkipSpaces(s, i) == |s| - |rest|
  {
    if rest != "" && s[i..] == rest {
      assert s[i] == s[i..][0];
    } else if s[i..] != rest {
      assert s[i] == s[i..][0];
      assert s[i + 1..] == s[i..][1..] == rest;
      assert rest != "" ==> s[i + 1] == rest[0];
    }
  }

  lemma {:induction false} EqualsBehind(s: string, i: nat, name: string, rest: string)
    requires i <= |s| && s[i..] == name + "=" + rest && '=' !in name
    ensures EqualsAt(s, i) == i + |name| && i + |name| < |s|
    decreases |name|
  {
    assert s[i] == (name + "=" + rest)[0];
    if name != "" {
      assert s[i + 1..] == s[i..][1..] == name[1..] + "=" + rest;
      EqualsBehind(s, i + 1, name[1..], rest);
    }
  }

  function Specials(v: string): nat {
    if v == "" then 0 else (if Special(v[0]) then 1 else 0) + Specials(v[1..])
  }

  lemma {:induction false} EscapeLength(v: string)
    ensures |Escape(v)| == |v| + Specials(v)
  {
    if v != "" {
      EscapeLength(v[1..]);
    }
  }

  /** Inside the quotes, an escaped value is passed without leaving them. */
  lemma {:induction false} EscapedPassed(s: string, i: nat, v: string, rest: string)
    requires i <= |s| && s[i..] == Escape(v) + "\"" + rest
    ensures i + |Escape(v)| + 1 <= |s|
    ensures var r := ValueEnd(s, i + |Escape(v)| + 1, false); ValueEnd(s, i, true) == (r.0, r.1 + Specials(v))
    decreases |v|
  {
    var all := Escape(v) + "\"" + rest;
    assert s[i] == all[0];
    if v != "" {
      if Special(v[0]) {
        assert s[i + 1] == all[1];
        assert s[i + 2..] == s[i..][2..] == Escape(v[1..]) + "\"" + rest;
        EscapedPassed(s, i + 2, v[1..], rest);
      } else {
        assert s[i + 1..] == s[i..][1..] == Escape(v[1..]) + "\"" + rest;
        EscapedPassed(s, i + 1, v[1..], rest);
      }
    }
  }

  lemma {:induction false} BarePassed(s: string, i: nat, v: string, rest: string)
    requires i <= |s| && s[i..] == v + rest && (rest != "" ==> rest[0] == ' ')
    requires forall k :: 0 <= k < |v| ==> v[k] != ' ' && !Special(v[k])
    ensures ValueEnd(s, i, false) == (i + |v|, 0)
    decreases |v|
  {
    if v == "" {
      assert rest != "" ==> s[i] == rest[0];
    } else {
      assert s[i] == s[i..][0] == v[0];
      assert s[i + 1..] == s[i..][1..] == v[1..] + rest;
      BarePassed(s, i + 1, v[1..], rest);
    }
  }

  lemma {:induction false} EscapeUndone(s: string, i: nat, v: string, rest: string)
    requires i <= |s| && s[i..] == Escape(v) + rest
    ensures Unescaped(s, i, |v|) == v
    decreases |v|
  {
    if v != "" {
      var all := Escape(v) + rest;
      assert s[i] == all[0];
      if Special(v[0]) {
        assert s[i + 1] == all[1];
        assert s[i + 2..] == s[i..][2..] == Escape(v[1..]) + rest;
        EscapeUndone(s, i + 2, v[1..], rest);
      } else {
        assert s[i + 1..] == s[i..][1..] == Escape(v[1..]) + rest;
        EscapeUndone(s, i + 1, v[1..], rest);
      }
      assert v == [v[0]] + v[1..];
    }
  }

  lemma {:induction false} NothingEscaped(v: string)
    requires Specials(v) == 0
    ensures Escape(v) == v
  {
    if v != "" {
      NothingEscaped(v[1..]);
      assert v == [v[0]] + v[1..];
    }
  }

  lemma Parts(s: string, i: nat, a: string, b: string)
    requires i <= |s| && s[i..] == a + b
    ensures i + |a| <= |s| && s[i..i + |a|] == a && s[i + |a|..] == b && (a != "" ==> s[i] == a[0])
  {
    assert s[i..i + |a|] == s[i..][..|a|];
    assert s[i + |a|..] == s[i..][|a|..];
    assert a != "" ==> s[i] == s[i..][0];
  }

  lemma QuoteOpens(s: string, i: nat)
    requires i < |s| && s[i] == '"'
    ensures ValueEnd(s, i, false) == ValueEnd(s, i + 1, true)
  {
  }

  lemma QuotedEnd(s: string, from: nat, v: string, rest: string)
    requires from <= |s| && s[from..] == "\"" + (Escape(v) + ("\"" + rest)) && (rest != "" ==> rest[0] == ' ')
    ensures |s| == from + |v| + Specials(v) + 2 + |rest| && s[from] == '"'
    ensures ValueEnd(s, from, false) == (|s| - |rest|, Specials(v))
    ensures s[from + 1..] == Escape(v) + ("\"" + rest)
  {
    hide Escape, ValueEnd, Specials;
    var inner := Escape(v) + ("\"" + rest);
    Parts(s, from, "\"", inner);
    assert inner == Escape(v) + "\"" + rest;
    QuoteOpens(s, from);
    EscapedPassed(s, from + 1, v, rest);
    EscapeLength(v);
    Parts(s, from + 1, Escape(v) + "\"", rest);
    AtRest(s, |s| - |rest|, rest);
  }

  lemma ReadQuoted(s: string, n: Span, v: string, rest: string)
    requires n.start <= n.eq < n.end == |s| - |rest| && (rest != "" ==> rest[0] == ' ')
    requires s[n.eq + 1..] == "\"" + (Escape(v) + ("\"" + rest))
    ensures ValueEnd(s, n.eq + 1, false) == (n.end, Specials(v))
    ensures ValueOf(s, n.(escaped := Specials(v))) == Found(s[n.start..n.eq], v, n.end)
  {
    hide Escape, Unescaped, ValueEnd, Specials;
    var from := n.eq + 1;
    QuotedEnd(s, from, v, rest);
    if Specials(v) == 0 {
      NothingEscaped(v);
      Parts(s, from + 1, v, "\"" + rest);
    } else {
      EscapeUndone(s, from + 1, v, "\"" + rest);
    }
  }

  lemma ReadBare(s: string, n: Span, v: string, rest: string)
    requires n.start <= n.eq < n.end == |s| - |rest| && (rest != "" ==> rest[0] == ' ')
    requires s[n.eq + 1..] == v + rest && forall i :: 0 <= i < |v| ==> v[i] != ' ' && !Special(v[i])
    ensures ValueEnd(s, n.eq + 1, false) == (n.end, 0)
    ensures ValueOf(s, n.(escaped := 0)) == Found(s[n.start..n.eq], v, n.end)
  {
    BarePassed(s, n.eq + 1, v, rest);
    Parts(s, n.eq + 1, v, rest);
    if v == "" && rest != "" {
      assert s[n.eq + 1] == s[n.eq + 1..][0];
    }
  }

  /** Behind an attribute there is a space or nothing. */
  lemma AtRest(s: string, i: nat, rest: string)
    requires i <= |s| && s[i..] == rest && (rest != "" ==> rest[0] == ' ')
    ensures ValueEnd(s, i, false) == (i, 0)
  {
    assert rest != "" ==> s[i] == s[i..][0];
  }

  lemma ReadValue(s: string, n: Span, p: Pair, rest: string)
    requires n.start <= n.eq < n.end == |s| - |rest| && Writable(p) && (rest != "" ==> rest[0] == ' ')
    requires s[n.eq + 1..] == Raw(p) + rest
    ensures var v := ValueEnd(s, n.eq + 1, false);
      v.0 == n.end && ValueOf(s, n.(escaped := v.1)) == Found(s[n.start..n.eq], p.value, n.end)
  {
    hide ValueEnd, ValueOf, Escape;
    if p.quoted {
      assert Raw(p) + rest == "\"" + (Escape(p.value) + ("\"" + rest));
      ReadQuoted(s, n, p.value, rest);
    } else {
      ReadBare(s, n, p.value, rest);
    }
  }

  lemma PrintedParts(p: Pair, rest: string)
    requires Writable(p)
    ensures var text := Printed(p) + rest;
      && text == p.name + "=" + (Raw(p) + rest) == p.name + ("=" + (Raw(p) + rest))
      && text != "" && text[0] != ' '
  {
    var text := Printed(p) + rest;
    assert text[0] == if p.name == "" then '=' else p.name[0];
  }

  lemma TextFound(s: string, i: nat, text: string)
    requires i <= |s| && (s[i..] == text || s[i..] == " " + text) && text != "" && text[0] != ' '
    ensures SkipSpaces(s, i) == |s| - |text| < |s| && s[|s| - |text|..] == text
  {
    SpacesSkipped(s, i, text);
    if s[i..] == " " + text {
      Parts(s, i, " ", text);
    }
  }

  lemma NameFound(s: string, start: nat, p: Pair, rest: string)
    requires start <= |s| && Writable(p) && s[start..] == Printed(p) + rest
    ensures var eq := start + |p.name|;
      EqualsAt(s, start) == eq < |s| && s[start..eq] == p.name && s[eq + 1..] == Raw(p) + rest
  {
    hide Raw, Printed, EqualsAt;
    PrintedParts(p, rest);
    EqualsBehind(s, start, p.name, Raw(p) + rest);
    Parts(s, start, p.name + "=", Raw(p) + rest);
    Parts(s, start, p.name, "=" + (Raw(p) + rest));
  }

  lemma SpanIs(s: string, i: nat)
    requires i <= |s|
    ensures var start := SkipSpaces(s, i);
      start < |s| && EqualsAt(s, start) < |s| ==>
        var eq := EqualsAt(s, start);
        var v := ValueEnd(s, eq + 1, false);
        NextSpan(s, i) == Some(Span(start, eq, v.0, v.1))
  {
    hide ValueEnd, SkipSpaces, EqualsAt;
  }

  /** What one attribute is read as, with others behind it. */
  lemma ReadOne(s: string, i: nat, p: Pair, rest: string)
    requires i <= |s| && Writable(p) && (rest != "" ==> rest[0] == ' ')
    requires s[i..] == Printed(p) + rest || s[i..] == " " + (Printed(p) + rest)
    ensures var n := NextSpan(s, i);
      && n.Some? && n.value.end == |s| - |rest| && s[n.value.start..n.value.eq] == p.name
      && ValueOf(s, n.value) == Found(p.name, p.value, |s| - |rest|)
  {
    hide ValueEnd, ValueOf, Raw, Printed, SkipSpaces, EqualsAt, Writable, NextSpan;
    PrintedParts(p, rest);
    TextFound(s, i, Printed(p) + rest);
    var start := SkipSpaces(s, i);
    NameFound(s, start, p, rest);
    SpanIs(s, i);
    ReadValue(s, Span(start, start + |p.name|, |s| - |rest|, 0), p, rest);
  }

  ghost predicate AllWritable(pairs: seq<Pair>) {
    forall k :: 0 <= k < |pairs| ==> Writable(pairs[k])
  }

  /** Where the first k attributes of a line end */
  function PositionAfter(pairs: seq<Pair>, k: nat): nat
    requires k <= |pairs|
  {
    if k == 0 then 0
    else PositionAfter(pairs, k - 1) + (if k == 1 then 0 else 1) + |Printed(pairs[k - 1])|
  }

  lemma {:induction false} TextBehind(pairs: seq<Pair>, k: nat)
    requires k <= |pairs|
    ensures var i := PositionAfter(pairs, k);
      i <= |Line(pairs)| && Line(pairs)[i..] == if k == 0 then Line(pairs) else More(pairs[k..])
    decreases k
  {
    hide Printed;
    var s := Line(pairs);
    if k == 1 {
      Parts(s, 0, Printed(pairs[0]), More(pairs[1..]));
    } else if k > 1 {
      TextBehind(pairs, k - 1);
      var p := pairs[k - 1];
      assert pairs[k - 1..][0] == p && pairs[k - 1..][1..] == pairs[k..];
      Parts(s, PositionAfter(pairs, k - 1), " " + Printed(p), More(pairs[k..]));
    }
  }

  lemma MoreStarts(pairs: seq<Pair>)
    ensures More(pairs) != "" ==> More(pairs)[0] == ' '
    ensures pairs != [] ==> More(pairs) == " " + (Printed(pairs[0]) + More(pairs[1..]))
  {
  }

  lemma NothingLeft(s: string, i: nat)
    requires i <= |s| && s[i..] == ""
    ensures NextSpan(s, i) == None
  {
  }

  /** Reading a printed line with a moving position gives its attributes in order, and then fails. */
  lemma ReadsInOrder(pairs: seq<Pair>, k: nat)
    requires k <= |pairs| && AllWritable(pairs)
    ensures var i := PositionAfter(pairs, k);
      && i <= |Line(pairs)|
      && Lookup(Line(pairs), None, i) ==
        if k == |pairs| then NotFound else Found(pairs[k].name, pairs[k].value, PositionAfter(pairs, k + 1))
  {
    hide NextSpan, ValueOf, Printed, Writable;
    var s, i := Line(pairs), PositionAfter(pairs, k);
    TextBehind(pairs, k);
    if k == |pairs| {
      NothingLeft(s, i);
    } else {
      assert k > 0 ==> pairs[k..][0] == pairs[k] && pairs[k..][1..] == pairs[k + 1..];
      MoreStarts(pairs[k..]);
      MoreStarts(pairs[k + 1..]);
      TextBehind(pairs, k + 1);
      ReadOne(s, i, pairs[k], More(pairs[k + 1..]));
    }
  }

  /** The first attribute of a name */
  function FirstNamed(pairs: seq<Pair>, name: string): Option<Pair> {
    if pairs == [] then None else if pairs[0].name == name then Some(pairs[0]) else FirstNamed(pairs[1..], name)
  }

  /** Looking up a name in a printed line gives the value of the first attribute of that name. */
  lemma {:induction false} FindsFirst(s: string, i: nat, pairs: seq<Pair>, name: string)
    requires i <= |s| && AllWritable(pairs) && (s[i..] == More(pairs) || s[i..] == Line(pairs))
    ensures match FirstNamed(pairs, name)
      case None => Lookup(s, Some(name), i) == NotFound
      case Some(p) => var r := Lookup(s, Some(name), i); r.Found? && r.name == name && r.value == p.value
    decreases |pairs|
  {
    hide NextSpan, ValueOf, Printed, Writable;
    if pairs == [] {
      NothingLeft(s, i);
    } else {
      var p, rest := pairs[0], More(pairs[1..]);
      MoreStarts(pairs);
      MoreStarts(pairs[1..]);
      ReadOne(s, i, p, rest);
      if p.name != name {
        var end := |s| - |rest|;
        assert s[end..] == rest by {
          if s[i..] == Line(pairs) {
            Parts(s, i, Printed(p), rest);
          } else {
            Parts(s, i, " " + Printed(p), rest);
          }
        }
        FindsFirst(s, end, pairs[1..], name);
      }
    }
  }

  /** Reads a whole line, attribute by attribute. */
  method ReadAll(s: string, ghost written: seq<Pair>) returns (names: seq<string>, values: seq<string>)
    requires s == Line(written) && AllWritable(written)
    ensures |names| == |values| == |written|
    ensures forall k :: 0 <= k < |written| ==> names[k] == written[k].name && values[k] == written[k].value
  {
    hide Lookup, Line, PositionAfter, AllWritable;
    names, values := [], [];
    var pos := 0;
    StartsAtZero(written);
    while true
      invariant |names| == |values| <= |written|
      invariant forall k :: 0 <= k < |names| ==> names[k] == written[k].name && values[k] == written[k].value
      invariant pos <= |s| && pos == PositionAfter(written, |names|)
      decreases |written| - |names|
    {
      ReadsInOrder(written, |names|);
      var r := AttrFromLine(s, None, pos);
      if !r.Found? {
        return;
      }
      ReadsInOrder(written, |names| + 1);
      names, values, pos := names + [r.name], values + [r.value], r.next;
    }
  }

  lemma StartsAtZero(pairs: seq<Pair>)
    ensures PositionAfter(pairs, 0) == 0
  {
  }

  // -------------------------------------------------------- broken values

  /** Each backslash but one at the very end takes a character along. */
  lemma {:induction false} FewEscapes(s: string, i: nat, quoted: bool)
    requires i <= |s|
    ensures var r := ValueEnd(s, i, quoted);
      && 2 * r.1 <= r.0 - i + 1
      && (r.0 == i + 1 && r.1 == 1 ==> r.0 == |s| && s[i] == '\\')
      && (quoted && r.0 == i ==> i == |s|)
    decreases |s| - i
  {
    if i < |s| && (quoted || s[i] != ' ') {
      if s[i] == '\\' {
        FewEscapes(s, if i + 1 < |s| then i + 2 else i + 1, quoted);
      } else {
        FewEscapes(s, i + 1, quoted != (s[i] == '"'));
      }
    }
  }

  /** The copy gets a negative length exactly if the line breaks off right behind an opening quote. */
  lemma NegativeExactly(s: string, i: nat)
    requires i <= |s| && NextSpan(s, i).Some?
    ensures var p := NextSpan(s, i).value;
      ValueOf(s, p).Negative? <==> s[p.eq + 1..] == "\"" || s[p.eq + 1..] == "\"\\"
  {
    var p := NextSpan(s, i).value;
    var from := p.eq + 1;
    if from < |s| && s[from] == '"' {
      FewEscapes(s, from + 1, true);
      assert s[from..] == "\"" <==> |s| == from + 1;
      assert s[from..] == "\"\\" <==> |s| == from + 2 && s[from + 1] == '\\';
    } else {
      assert s[from..] != "" ==> s[from..][0] == s[from];
    }
  }

  /** Such a line: the quote is the last character. */
  lemma NegativeAt()
    ensures Lookup("a=\"", None, 0) == Negative(3)
  {
    var s := "a=\"";
    assert EqualsAt(s, 0) == 1;
    assert ValueEnd(s, 2, false) == ValueEnd(s, 3, true) == (3, 0);
    assert NextSpan(s, 0) == Some(Span(0, 1, 3, 0));
  }
}
