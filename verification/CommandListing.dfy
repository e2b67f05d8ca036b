/** Statements of navit/command.c have texts that are read as those statements. */
module CommandListing {
  import opened CommandTree
  import opened CommandGrammar
  import opened CommandPrint
  import opened CommandRoundTrip

  predicate Prefixed(w: string, text: string) { |w| <= |text| && text[..|w|] == w }

  /** The text of an expression is not taken for a statement with a keyword, nor for the `else` of one before. */
  predicate NoKeyword(text: string) {
    !Prefixed("if", text) && !Prefixed("foreach", text) && !Prefixed("else", text)
  }

  /** An `else` behind the statement would be taken for its own. */
  predicate Open(s: Stmt) {
    match s
    case Plain(_, _) => false
    case If(_, _) => true
    case IfElse(_, _, no) => Open(no)
    case Foreach(_, _, body, _) => Open(body)
    case Block(_) => false
  }

  /** The statements that have a text */
  predicate Listed(s: Stmt)
    decreases s
  {
    match s
    case Plain(e, complete) => complete && Fine(e) && NoKeyword(Print(e, 1))
    case If(c, yes) => Fine(c) && Listed(yes)
    case IfElse(c, yes, no) => Fine(c) && Listed(yes) && Listed(no) && !Open(yes)
    case Foreach(v, source, body, complete) => complete && Fine(v) && Fine(source) && Listed(body)
    case Block(stmts) => AllListed(stmts)
  }

  predicate AllListed(stmts: Stmts)
    decreases stmts
  {
    match stmts
    case NoStmts => true
    case AndStmt(init, last) => AllListed(init) && Listed(last)
  }

  function Listing(s: Stmt): string
    decreases s
  {
    match s
    case Plain(e, _) => Print(e, 1) + " ;"
    case If(c, yes) => "if (" + (Print(c, 1) + (") " + Listing(yes)))
    case IfElse(c, yes, no) => "if (" + (Print(c, 1) + (") " + (Listing(yes) + (" else " + Listing(no)))))
    case Foreach(v, source, body, _) =>
      "foreach (" + (Print(v, 3) + (" ; " + (Print(source, 1) + (") " + Listing(body)))))
    case Block(stmts) => "{ " + (ListingAll(stmts) + "}")
  }

  function ListingAll(stmts: Stmts): string
    decreases stmts
  {
    match stmts
    case NoStmts => ""
    case AndStmt(init, last) => ListingAll(init) + (Listing(last) + " ")
  }

  // ---------------------------------------------------------------- keywords

  lemma PrefixedStarts(t: Text, i: nat, w: string, text: string)
    requires Starts(t, i, text) && |w| <= |text|
    ensures Starts(t, i, w) <==> Prefixed(w, text)
  {
    var u := t[i..i + |text|];
    assert u[..|w|] == t[i..i + |w|];
  }

  /** A keyword of letters is not in a text that has something else earlier. */
  lemma TooShort(t: Text, i: nat, w: string, text: string)
    requires Starts(t, i, text) && exists k :: 0 <= k < |text| && k < |w| && text[k] != w[k]
    ensures !Starts(t, i, w)
  {
    var k :| 0 <= k < |text| && k < |w| && text[k] != w[k];
    StartsAt(t, i, text);
    StartsAt(t, i, w);
    assert t[i + k] == text[k] != w[k];
  }

  lemma NotThere(t: Text, i: nat, w: string, text: string)
    requires Starts(t, i, text + " ;") && !Prefixed(w, text) && forall k :: 0 <= k < |w| ==> w[k] != ' '
    ensures !Starts(t, i, w)
  {
    hide Starts;
    var all := text + " ;";
    if |w| <= |text| {
      StartsBoth(t, i, text, " ;");
      PrefixedStarts(t, i, w, text);
    } else {
      assert all[|text|] == ' ' != w[|text|];
      TooShort(t, i, w, all);
    }
  }

  lemma NoKeywordStarts(t: Text, i: nat, text: string)
    requires Starts(t, i, text + " ;") && NoKeyword(text) && text != "" && text[0] != '{' && text[0] != '}'
    ensures FirstOp(t, i, ["foreach", "if", "{"]) == "" && !Starts(t, i, "else") && !Starts(t, i, "}")
  {
    hide Starts, FirstOp, Prefixed;
    NotThere(t, i, "if", text);
    NotThere(t, i, "foreach", text);
    NotThere(t, i, "else", text);
    assert (text + " ;")[0] == text[0];
    TooShort(t, i, "{", text + " ;");
    TooShort(t, i, "}", text + " ;");
    NoneStarts(t, i, ["foreach", "if", "{"]);
  }

  lemma KeywordStarts(t: Text, i: nat, word: string, rest: string)
    requires (word == "foreach" || word == "if" || word == "{") && Starts(t, i, word + rest)
    ensures FirstOp(t, i, ["foreach", "if", "{"]) == word && i < |t| && !IsSpace(t[i])
    ensures !Starts(t, i, "else") && !Starts(t, i, "}")
  {
    hide Starts, FirstOp;
    StartsBoth(t, i, word, rest);
    assert word[0] != "else"[0] && word[0] != "}"[0];
    TooShort(t, i, "else", word);
    TooShort(t, i, "}", word);
    StartsAt(t, i, word);
    assert t[i + 0] == word[0];
    if word == "foreach" {
      OneStarts(t, i, ["foreach", "if", "{"], 0);
    } else {
      TooShort(t, i, "foreach", word);
      if word == "if" {
        OneStarts(t, i, ["foreach", "if", "{"], 1);
      } else {
        TooShort(t, i, "if", word);
        OneStarts(t, i, ["foreach", "if", "{"], 2);
      }
    }
  }

  /** Where a statement stands, there is no space, no `else` and no closing brace. */
  lemma StatementStands(t: Text, i: nat, s: Stmt)
    requires Listed(s) && Starts(t, i, Listing(s))
    ensures i < |t| && i + |Listing(s)| <= |t| && !IsSpace(t[i]) && !Starts(t, i, "else") && !Starts(t, i, "}")
  {
    hide Starts, Print, Fine, FirstOp, NoKeyword;
    EndsWithin(t, i, Listing(s));
    match s
    case Plain(e, _) =>
      StartsBoth(t, i, Print(e, 1), " ;");
      FirstOf(e, 1);
      StandsAt(t, i, e, 1);
      NoKeywordStarts(t, i, Print(e, 1));
    case If(c, yes) =>
      assert Listing(s) == "if" + (" (" + (Print(c, 1) + (") " + Listing(yes))));
      KeywordStarts(t, i, "if", " (" + (Print(c, 1) + (") " + Listing(yes))));
    case IfElse(c, yes, no) =>
      var rest := Print(c, 1) + (") " + (Listing(yes) + (" else " + Listing(no))));
      assert Listing(s) == "if" + (" (" + rest);
      KeywordStarts(t, i, "if", " (" + rest);
    case Foreach(v, source, body, _) =>
      var rest := Print(v, 3) + (" ; " + (Print(source, 1) + (") " + Listing(body))));
      assert Listing(s) == "foreach" + (" (" + rest);
      KeywordStarts(t, i, "foreach", " (" + rest);
    case Block(stmts) =>
      assert Listing(s) == "{" + (" " + (ListingAll(stmts) + "}"));
      KeywordStarts(t, i, "{", " " + (ListingAll(stmts) + "}"));
  }

  lemma SemicolonFollows(t: Text, p: nat, k: nat)
    requires p + 1 < |t| && t[p] == ' ' && t[p + 1] == ';'
    ensures Follows(t, p, k) && SkipSpaces(t, p) == p + 1 && Starts(t, p + 1, ";")
  {
    hide Stops;
    SkipsOne(t, p);
    var j := p + 1;
    forall m | k <= m <= 14
      ensures Stops(t, j, m)
    {
      EndStops(t, j, m);
    }
  }

  // ----------------------------------------------------------------- reading

  /** What is read is the statement, complete, and its text ends at `end` but for spaces. */
  predicate StatementGives(r: StatementParse, s: Stmt, t: Text, end: nat)
    requires end <= |t|
  {
    r.Statement? && r.stmt == s && r.complete && r.pos <= |t| && SkipSpaces(t, r.pos) == SkipSpaces(t, end)
  }

  lemma {:induction false} SpaceInFront(t: Text, q: nat)
    requires q < |t| && t[q] == ' '
    ensures ParseStatement(t, q) == ParseStatement(t, q + 1) && SkipSpaces(t, q) == SkipSpaces(t, q + 1)
  {
    hide ParseComma, ParseForeach, ParseIf, ParseBlock, FirstOp;
    assert SkipSpaces(t, q) == SkipSpaces(t, q + 1);
  }

  lemma {:induction false} ReadsStatement(t: Text, i: nat, s: Stmt)
    requires Listed(s) && Starts(t, i, Listing(s)) && i + |Listing(s)| <= |t|
    requires Open(s) ==> !Starts(t, SkipSpaces(t, i + |Listing(s)|), "else")
    ensures StatementGives(ParseStatement(t, i), s, t, i + |Listing(s)|)
    decreases s, 1
  {
    hide Starts, SkipSpaces, ParseStatement, Listing, Listed;
    match s
    case Plain(_, _) => ReadsPlain(t, i, s);
    case If(_, _) => ReadsIf(t, i, s);
    case IfElse(_, _, _) => ReadsIfElse(t, i, s);
    case Foreach(_, _, _, _) => ReadsForeach(t, i, s);
    case Block(_) => ReadsBlock(t, i, s);
  }

  lemma {:induction false} ReadsPlain(t: Text, i: nat, s: Stmt)
    requires s.Plain? && Listed(s) && Starts(t, i, Listing(s)) && i + |Listing(s)| <= |t|
    ensures StatementGives(ParseStatement(t, i), s, t, i + |Listing(s)|)
  {
    hide Starts, SkipSpaces, Print, Fine, FirstOp, NoKeyword, ParseComma, ParseForeach, ParseIf, ParseBlock, Follows;
    var e := s.expr;
    StatementStands(t, i, s);
    SkipsNone(t, i);
    StartsBoth(t, i, Print(e, 1), " ;");
    var p := i + |Print(e, 1)|;
    TwoChars(t, p, ' ', ';');
    SemicolonFollows(t, p, 1);
    FirstOf(e, 1);
    NoKeywordStarts(t, i, Print(e, 1));
    Reads(t, i, e, 1);
  }

  /** The condition in its parentheses, and that a statement comes next */
  lemma ConditionReads(t: Text, i: nat, c: Expr, rest: string)
    requires Fine(c) && Starts(t, i, "if (" + (Print(c, 1) + (") " + rest)))
    ensures var p := i + 4 + |Print(c, 1)|;
      && p + 2 <= |t| && ParseCondition(t, i + 2) == Ok(c, p + 1) && t[p + 1] == ' ' && Starts(t, p + 2, rest)
      && FirstOp(t, i, ["foreach", "if", "{"]) == "if" && SkipSpaces(t, i) == i
  {
    hide Starts, SkipSpaces, Print, Fine, FirstOp, ParseComma, Follows;
    assert "if (" + (Print(c, 1) + (") " + rest)) == "if" + (" (" + (Print(c, 1) + (") " + rest)));
    KeywordStarts(t, i, "if", " (" + (Print(c, 1) + (") " + rest)));
    SkipsNone(t, i);
    StartsBoth(t, i, "if", " (" + (Print(c, 1) + (") " + rest)));
    StartsBoth(t, i + 2, " (", Print(c, 1) + (") " + rest));
    TwoChars(t, i + 2, ' ', '(');
    StartsBoth(t, i + 4, Print(c, 1), ") " + rest);
    var p := i + 4 + |Print(c, 1)|;
    StartsBoth(t, p, ") ", rest);
    TwoChars(t, p, ')', ' ');
    SkipsOne(t, i + 2);
    StartsLooks(t, i + 3, "(");
    ParenthesisCloses(t, i + 4, c);
  }

  /** An expression up to a closing parenthesis */
  lemma ParenthesisCloses(t: Text, i: nat, e: Expr)
    requires Fine(e) && Starts(t, i, Print(e, 1)) && i + |Print(e, 1)| < |t| && t[i + |Print(e, 1)|] == ')'
    ensures Closed(t, ParseComma(t, i)) == Ok(e, i + |Print(e, 1)| + 1)
  {
    hide Starts, SkipSpaces, Print, Fine, ParseComma, Follows;
    var p := i + |Print(e, 1)|;
    EndFollows(t, p, 1);
    Reads(t, i, e, 1);
    StartsLooks(t, p, ")");
  }

  lemma {:induction false} ReadsIf(t: Text, i: nat, s: Stmt)
    requires s.If? && Listed(s) && Starts(t, i, Listing(s)) && i + |Listing(s)| <= |t|
    requires !Starts(t, SkipSpaces(t, i + |Listing(s)|), "else")
    ensures StatementGives(ParseStatement(t, i), s, t, i + |Listing(s)|)
    decreases s, 0
  {
    hide Starts, SkipSpaces, Print, Fine, ParseStatement, ParseCondition, FirstOp;
    match s
    case If(c, yes) =>
      ConditionReads(t, i, c, Listing(yes));
      var q := i + 6 + |Print(c, 1)|;
      SpaceInFront(t, q - 1);
      ReadsStatement(t, q, yes);
      SkipTwice(t, i + |Listing(s)|);
      IfGoesOn(t, i, q - 1);
  }

  lemma {:induction false} IfGoesOn(t: Text, i: nat, q: nat)
    requires i < |t| && SkipSpaces(t, i) == i && FirstOp(t, i, ["foreach", "if", "{"]) == "if"
    requires i + 2 <= |t| && ParseCondition(t, i + 2).Ok? && ParseCondition(t, i + 2).pos == q <= |t|
    ensures ParseStatement(t, i) == ParseThen(t, q, ParseCondition(t, i + 2).expr)
  {
    hide Starts, SkipSpaces, FirstOp, ParseCondition, ParseThen, ParseForeach, ParseBlock, ParseComma;
  }

  lemma {:induction false} ReadsIfElse(t: Text, i: nat, s: Stmt)
    requires s.IfElse? && Listed(s) && Starts(t, i, Listing(s)) && i + |Listing(s)| <= |t|
    requires Open(s) ==> !Starts(t, SkipSpaces(t, i + |Listing(s)|), "else")
    ensures StatementGives(ParseStatement(t, i), s, t, i + |Listing(s)|)
    decreases s, 0
  {
    hide Starts, SkipSpaces, Print, Fine, ParseStatement, ParseCondition, FirstOp;
    match s
    case IfElse(c, yes, no) =>
      ConditionReads(t, i, c, Listing(yes) + (" else " + Listing(no)));
      var q := i + 6 + |Print(c, 1)|;
      StartsBoth(t, q, Listing(yes), " else " + Listing(no));
      var r := q + |Listing(yes)|;
      ElseStands(t, r, Listing(no));
      SpaceInFront(t, q - 1);
      ReadsStatement(t, q, yes);
      SpaceInFront(t, r + 5);
      ReadsStatement(t, r + 6, no);
      IfGoesOn(t, i, q - 1);
  }

  lemma ElseStands(t: Text, r: nat, rest: string)
    requires Starts(t, r, " else " + rest)
    ensures r + 6 <= |t| && t[r] == ' ' && t[r + 5] == ' ' && SkipSpaces(t, r) == r + 1
    ensures Starts(t, r + 1, "else") && Starts(t, r + 6, rest)
  {
    hide Starts, SkipSpaces;
    assert " else " + rest == " " + ("else" + (" " + rest));
    StartsBoth(t, r, " ", "else" + (" " + rest));
    StartsBoth(t, r + 1, "else", " " + rest);
    StartsBoth(t, r + 5, " ", rest);
    OneChar(t, r, ' ');
    OneChar(t, r + 5, ' ');
    StartsAt(t, r + 1, "else");
    assert t[r + 1 + 0] == "else"[0];
    SkipsOne(t, r);
    EndsWithin(t, r + 6, rest);
  }

  lemma {:induction false} ReadsForeach(t: Text, i: nat, s: Stmt)
    requires s.Foreach? && Listed(s) && Starts(t, i, Listing(s)) && i + |Listing(s)| <= |t|
    requires Open(s) ==> !Starts(t, SkipSpaces(t, i + |Listing(s)|), "else")
    ensures StatementGives(ParseStatement(t, i), s, t, i + |Listing(s)|)
    decreases s, 0
  {
    hide Starts, SkipSpaces, Print, Fine, ParseStatement, ParseVariable, FirstOp, ParseComma, Closed;
    match s
    case Foreach(v, source, body, _) =>
      assert Listing(s) == "foreach (" + (Print(v, 3) + (" ;" + (" " + (Print(source, 1) + (") " + Listing(body))))));
      var q := ForeachHead(t, i, v, source, Listing(body));
      SpaceInFront(t, q);
      ReadsStatement(t, q + 1, body);
      ForeachGoesOn(t, i, i + 11 + |Print(v, 3)|, q, v, source);
  }

  /** Variable and object of a foreach, and that its body comes next */
  lemma ForeachHead(t: Text, i: nat, v: Expr, source: Expr, rest: string) returns (q: nat)
    requires Fine(v) && Fine(source)
    requires Starts(t, i, "foreach (" + (Print(v, 3) + (" ;" + (" " + (Print(source, 1) + (") " + rest))))))
    ensures var p := i + 11 + |Print(v, 3)|;
      && p <= |t| && q == p + |Print(source, 1)| + 2 < |t| && t[q] == ' ' && Starts(t, q + 1, rest)
      && ParseVariable(t, i + 7) == Ok(v, p) && Closed(t, ParseComma(t, p)) == Ok(source, q)
      && FirstOp(t, i, ["foreach", "if", "{"]) == "foreach" && SkipSpaces(t, i) == i
  {
    hide Starts, SkipSpaces, Print, Fine, ParseVariable, FirstOp, ParseComma, Closed;
    var b := Print(source, 1);
    HeadReads(t, i, v, " " + (b + (") " + rest)));
    var p := i + 11 + |Print(v, 3)|;
    StartsBoth(t, p, " ", b + (") " + rest));
    OneChar(t, p, ' ');
    StartsBoth(t, p + 1, b, ") " + rest);
    q := p + |b| + 2;
    StartsBoth(t, q - 1, ") ", rest);
    TwoChars(t, q - 1, ')', ' ');
    ParenthesisCloses(t, p + 1, source);
    Behind(t, p, source, 1);
  }

  lemma HeadReads(t: Text, i: nat, v: Expr, rest: string)
    requires Fine(v) && Starts(t, i, "foreach (" + (Print(v, 3) + (" ;" + rest)))
    ensures var p := i + 9 + |Print(v, 3)|;
      && p + 2 <= |t| && ParseVariable(t, i + 7) == Ok(v, p + 2) && Starts(t, p + 2, rest)
      && FirstOp(t, i, ["foreach", "if", "{"]) == "foreach" && SkipSpaces(t, i) == i
  {
    hide Starts, SkipSpaces, Print, Fine, FirstOp, ParseConditional, Follows;
    var tail := Print(v, 3) + (" ;" + rest);
    assert "foreach (" + tail == "foreach" + (" (" + tail);
    KeywordStarts(t, i, "foreach", " (" + tail);
    SkipsNone(t, i);
    StartsBoth(t, i, "foreach", " (" + tail);
    StartsBoth(t, i + 7, " (", tail);
    TwoChars(t, i + 7, ' ', '(');
    StartsBoth(t, i + 9, Print(v, 3), " ;" + rest);
    var p := i + 9 + |Print(v, 3)|;
    StartsBoth(t, p, " ;", rest);
    TwoChars(t, p, ' ', ';');
    SkipsOne(t, i + 7);
    StartsLooks(t, i + 8, "(");
    SemicolonFollows(t, p, 3);
    Reads(t, i + 9, v, 3);
  }

  lemma {:induction false} ForeachGoesOn(t: Text, i: nat, p: nat, q: nat, v: Expr, source: Expr)
    requires i + 7 <= |t| && p <= |t| && q <= |t| && SkipSpaces(t, i) == i
    requires FirstOp(t, i, ["foreach", "if", "{"]) == "foreach"
    requires ParseVariable(t, i + 7) == Ok(v, p) && Closed(t, ParseComma(t, p)) == Ok(source, q)
    ensures var b := ParseStatement(t, q);
      b.Statement? ==> ParseStatement(t, i) == Statement(Foreach(v, source, b.stmt, b.complete), b.pos, b.complete)
  {
    hide Starts, SkipSpaces, FirstOp, ParseVariable, ParseComma, Closed, ParseIf, ParseBlock;
    assert ParseStatement(t, i) == ParseForeach(t, i + 7);
  }

  lemma {:induction false} ReadsBlock(t: Text, i: nat, s: Stmt)
    requires s.Block? && Listed(s) && Starts(t, i, Listing(s)) && i + |Listing(s)| <= |t|
    ensures StatementGives(ParseStatement(t, i), s, t, i + |Listing(s)|)
    decreases s, 0
  {
    hide Starts, SkipSpaces, Print, Fine, ParseStatement, FirstOp, ParseBlock;
    match s
    case Block(stmts) =>
      var all := ListingAll(stmts);
      assert Listing(s) == "{" + (" " + (all + "}"));
      KeywordStarts(t, i, "{", " " + (all + "}"));
      SkipsNone(t, i);
      StartsBoth(t, i, "{", " " + (all + "}"));
      StartsBoth(t, i + 1, " ", all + "}");
      OneChar(t, i + 1, ' ');
      StartsBoth(t, i + 2, all, "}");
      var end := i + 2 + |all|;
      OneChar(t, end, '}');
      SkipsNone(t, end);
      assert "}"[0] != "else"[0];
      TooShort(t, end, "else", "}");
      SpaceInFront(t, i + 1);
      SameBlock(t, i + 1, i + 2, NoStmts);
      AllRead(t, i + 2, stmts);
      BlockCloses(t, i, end, stmts);
  }

  lemma {:induction false} BlockCloses(t: Text, i: nat, end: nat, stmts: Stmts)
    requires i < |t| && SkipSpaces(t, i) == i && FirstOp(t, i, ["foreach", "if", "{"]) == "{"
    requires end < |t| && SkipSpaces(t, end) == end && Starts(t, end, "}")
    requires ParseBlock(t, i + 1, NoStmts) == ParseBlock(t, end, stmts)
    ensures ParseStatement(t, i) == Statement(Block(stmts), end + 1, true)
  {
    hide Starts, SkipSpaces, FirstOp, ParseComma, ParseForeach, ParseIf;
  }

  lemma {:induction false} SameBlock(t: Text, p: nat, q: nat, done: Stmts)
    requires p <= |t| && q <= |t| && SkipSpaces(t, p) == SkipSpaces(t, q)
    ensures ParseBlock(t, p, done) == ParseBlock(t, q, done)
  {
    hide Starts, SkipSpaces, ParseStatement;
  }

  lemma {:induction false} AllRead(t: Text, i: nat, stmts: Stmts)
    requires AllListed(stmts) && Starts(t, i, ListingAll(stmts)) && i + |ListingAll(stmts)| <= |t|
    requires !Starts(t, SkipSpaces(t, i + |ListingAll(stmts)|), "else")
    ensures ParseBlock(t, i, NoStmts) == ParseBlock(t, i + |ListingAll(stmts)|, stmts)
    decreases stmts, 0
  {
    hide Starts, SkipSpaces, Listing, Listed, ParseBlock, ParseStatement, Open;
    match stmts
    case NoStmts =>
    case AndStmt(init, last) =>
      var end := i + |ListingAll(stmts)|;
      StartsBoth(t, i, ListingAll(init), Listing(last) + " ");
      var p := i + |ListingAll(init)|;
      StartsBoth(t, p, Listing(last), " ");
      OneChar(t, end - 1, ' ');
      StatementStands(t, p, last);
      SkipsNone(t, p);
      AllRead(t, i, init);
      SpaceInFront(t, end - 1);
      ReadsStatement(t, p, last);
      BlockGoesOn(t, p, init, last, end);
  }

  lemma {:induction false} BlockGoesOn(t: Text, p: nat, done: Stmts, s: Stmt, end: nat)
    requires p < |t| && end <= |t| && SkipSpaces(t, p) == p && !Starts(t, p, "}")
    requires StatementGives(ParseStatement(t, p), s, t, end)
    ensures ParseBlock(t, p, done) == ParseBlock(t, end, AndStmt(done, s))
  {
    hide Starts, SkipSpaces, ParseStatement;
    SameBlock(t, ParseStatement(t, p).pos, end, AndStmt(done, s));
  }

  // ------------------------------------------------------------ main results

  lemma {:induction false} ListingNoEnd(s: Stmt)
    requires Listed(s)
    ensures '\0' !in Listing(s)
    decreases s
  {
    hide Print, Fine, NoKeyword, Open;
    match s
    case Plain(e, _) => NoEnd(e, 1);
    case If(c, yes) =>
      NoEnd(c, 1);
      ListingNoEnd(yes);
    case IfElse(c, yes, no) =>
      NoEnd(c, 1);
      ListingNoEnd(yes);
      ListingNoEnd(no);
    case Foreach(v, source, body, _) =>
      NoEnd(v, 3);
      NoEnd(source, 1);
      ListingNoEnd(body);
    case Block(stmts) => AllNoEnd(stmts);
  }

  lemma {:induction false} AllNoEnd(stmts: Stmts)
    requires AllListed(stmts)
    ensures '\0' !in ListingAll(stmts)
    decreases stmts
  {
    hide Listing, Listed;
    if stmts.AndStmt? {
      AllNoEnd(stmts.init);
      ListingNoEnd(stmts.last);
    }
  }

  /** The text of a statement */
  function StatementText(s: Stmt): Text
    requires Listed(s)
  {
    ListingNoEnd(s);
    Listing(s)
  }

  /** Main result: the text of a statement is read as that statement, complete, to its end. */
  lemma StatementRoundTrip(s: Stmt)
    requires Listed(s)
    ensures var t := StatementText(s); StatementGives(ParseStatement(t, 0), s, t, |t|)
  {
    hide Listing, Listed, ParseStatement, Open;
    var t := StatementText(s);
    assert t[0..|t|] == t;
    SkipsNone(t, |t|);
    ReadsStatement(t, 0, s);
  }

  /** A name that begins like a keyword cannot begin a statement. */
  lemma KeywordTaken()
    ensures IsWord("iffy") && ParseStatement("iffy ;", 0).BadStatement?
  {
    var t: Text := "iffy ;";
    hide FirstOp, Starts;
    assert t == "if" + "fy ;";
    KeywordIs(t);
    StartsLooks(t, 2, "(");
    assert SkipSpaces(t, 0) == 0 && SkipSpaces(t, 2) == 2;
  }

  lemma KeywordIs(t: Text)
    requires t == "if" + "fy ;"
    ensures FirstOp(t, 0, ["foreach", "if", "{"]) == "if"
  {
    hide FirstOp;
    assert t[0..|t|] == t;
    KeywordStarts(t, 0, "if", "fy ;");
  }
}
