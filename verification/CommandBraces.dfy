/**
 * Braces in the text of a command (navit/command.c).  Reading on from a place, quoted strings are passed as
 * the evaluator passes them; an expression opens as many braces as it closes, which is none.
 */
module CommandBraces {
  import opened Wrappers
  import opened CommandTree
  import opened CommandGrammar

  /** The braces opened less those closed between two places, or none if reading on from i does not come to j */
  function Braces(t: Text, i: nat, j: nat): (n: Option<int>)
    ensures n.Some? ==> i <= j && (i < j ==> j <= |t|)
    decreases |t| - i
  {
    if i == j then Some(0)
    else if i >= |t| then None
    else if t[i] == '"' then
      match ParseQuoted(t, i)
      case Bad => None
      case Ok(_, p) => Braces(t, p, j)
    else
      match Braces(t, i + 1, j)
      case None => None
      case Some(n) => Some(n + if t[i] == '{' then 1 else if t[i] == '}' then -1 else 0)
  }

  /** Between two places at least n more braces are opened than closed. */
  predicate Opens(t: Text, i: nat, j: nat, n: int) {
    Braces(t, i, j).Some? && Braces(t, i, j).value >= n
  }

  predicate Even(t: Text, i: nat, j: nat) { Braces(t, i, j) == Some(0) }

  lemma {:induction false} BracesAdd(t: Text, i: nat, j: nat, k: nat)
    requires Braces(t, i, j).Some? && Braces(t, j, k).Some?
    ensures Braces(t, i, k) == Some(Braces(t, i, j).value + Braces(t, j, k).value)
    decreases |t| - i
  {
    hide ParseQuoted;
    if i != j {
      BracesAdd(t, if t[i] == '"' then ParseQuoted(t, i).pos else i + 1, j, k);
    }
  }

  lemma EvenThen(t: Text, i: nat, j: nat, k: nat)
    requires Even(t, i, j) && Even(t, j, k)
    ensures Even(t, i, k)
  {
    BracesAdd(t, i, j, k);
  }

  predicate IsCode(c: char) { c != '"' && c != '{' && c != '}' }

  lemma {:induction false} CodePasses(t: Text, i: nat, j: nat)
    requires i <= j <= |t| && forall k :: i <= k < j ==> IsCode(t[k])
    ensures Even(t, i, j)
    decreases j - i
  {
    if i < j {
      CodePasses(t, i + 1, j);
    }
  }

  // ---------------------------------------------------------------- tokens

  lemma SpacesPass(t: Text, i: nat)
    requires i <= |t|
    ensures Even(t, i, SkipSpaces(t, i))
  {
    CodePasses(t, i, SkipSpaces(t, i));
  }

  lemma OperatorPasses(t: Text, j: nat, op: string)
    requires Starts(t, j, op) && forall k :: 0 <= k < |op| ==> IsCode(op[k])
    ensures j + |op| <= |t| && Even(t, j, j + |op|)
  {
    forall k | j <= k < j + |op|
      ensures IsCode(t[k])
    {
      assert t[k] == t[j..j + |op|][k - j];
    }
    CodePasses(t, j, j + |op|);
  }

  /** Spaces and an operator */
  lemma TokenPasses(t: Text, i: nat, op: string)
    requires i <= |t| && Starts(t, SkipSpaces(t, i), op) && forall k :: 0 <= k < |op| ==> IsCode(op[k])
    ensures SkipSpaces(t, i) + |op| <= |t| && Even(t, i, SkipSpaces(t, i) + |op|)
  {
    hide Even;
    SpacesPass(t, i);
    OperatorPasses(t, SkipSpaces(t, i), op);
    EvenThen(t, i, SkipSpaces(t, i), SkipSpaces(t, i) + |op|);
  }

  lemma {:induction false} WordPasses(t: Text, i: nat)
    requires i <= |t|
    ensures Even(t, i, WordEnd(t, i))
    decreases |t| - i
  {
    if IsLetter(At(t, i)) || IsDigit(At(t, i)) {
      WordPasses(t, i + 1);
    }
  }

  lemma NamePasses(t: Text, i: nat)
    requires i <= |t|
    ensures Even(t, i, NameEnd(t, i))
  {
    hide WordEnd;
    var j := WordEnd(t, i);
    WordPasses(t, i);
    if j < |t| && t[j] == ' ' {
      WordPasses(t, j + 1);
      BracesAdd(t, i, j, WordEnd(t, j + 1));
    }
  }

  lemma {:induction false} NumberPasses(t: Text, i: nat, dots: nat)
    requires i <= |t| && NumberEnd(t, i, dots).Upto?
    ensures Even(t, i, NumberEnd(t, i, dots).pos)
    decreases |t| - i
  {
    if At(t, i) == '.' {
      NumberPasses(t, i + 1, dots + 1);
    } else if IsDigit(At(t, i)) || At(t, i) == '-' {
      NumberPasses(t, i + 1, dots);
    }
  }

  lemma ValuePasses(t: Text, i: nat)
    requires i <= |t| && ParseValue(t, i).Ok?
    ensures Even(t, i, ParseValue(t, i).pos)
  {
    hide NameEnd, ParseQuoted, NumberEnd;
    if IsLetter(At(t, i)) {
      NamePasses(t, i);
    } else if StartsNumber(t, i) {
      NumberPasses(t, i, 0);
    } else {
      var p := ParseQuoted(t, i).pos;
      assert Braces(t, p, p) == Some(0);
    }
  }

  lemma {:induction false} OperatorsAreCode(level: nat, op: string)
    requires op in Operators(level)
    ensures forall k :: 0 <= k < |op| ==> IsCode(op[k])
  {
  }

  // ----------------------------------------------------------- expressions

  lemma ClosedPasses(t: Text, i: nat, inner: Parse)
    requires inner.Ok? ==> inner.pos <= |t| && Even(t, i, inner.pos)
    ensures var s := Closed(t, inner); s.Ok? ==> Even(t, i, s.pos)
  {
    hide Even, SkipSpaces;
    if Closed(t, inner).Ok? {
      TokenPasses(t, inner.pos, ")");
      EvenThen(t, i, inner.pos, Closed(t, inner).pos);
    }
  }

  lemma {:induction false} BracePasses(t: Text, i: nat)
    requires i <= |t| && ParseBrace(t, i).Ok?
    ensures Even(t, i, ParseBrace(t, i).pos)
    decreases |t| - i, 1
  {
    hide Even, SkipSpaces, ParseComma, ParseValue, Closed;
    var j, p := SkipSpaces(t, i), ParseBrace(t, i).pos;
    if Starts(t, j, "(") {
      TokenPasses(t, i, "(");
      var inner := ParseComma(t, j + 1);
      if inner.Ok? {
        CommaPasses(t, j + 1);
      }
      ClosedPasses(t, j + 1, inner);
      EvenThen(t, i, j + 1, p);
    } else {
      SpacesPass(t, i);
      ValuePasses(t, j);
      EvenThen(t, i, j, p);
    }
  }

  lemma {:induction false} SuffixesAre(t: Text, i: nat, e: Expr)
    requires i <= |t| && ParseSuffixes(t, i, e).Ok?
    ensures var j, s := SkipSpaces(t, i), ParseSuffixes(t, i, e);
      var op := FirstOp(t, j, ["[", "(", "."]);
      if op == "." then
        j < |t| && ParseBrace(t, j + 1).Ok? &&
        var m := ParseBrace(t, j + 1); s == ParseSuffixes(t, m.pos, Member(e, m.expr))
      else if op == "[" then
        j < |t| && var k := SkipSpaces(t, j + 1); Starts(t, k, "]") && s == ParseSuffixes(t, k + 1, Indexed(e))
      else if op == "(" then
        j < |t| && ParseCall(t, j + 1, e).Ok? &&
        var c := ParseCall(t, j + 1, e); s == ParseSuffixes(t, c.pos, c.expr)
      else s == Ok(e, j)
  {
    hide SkipSpaces, ParseBrace, ParseCall, Starts, FirstOp;
  }

  lemma {:induction false} SuffixesPass(t: Text, i: nat, e: Expr)
    requires i <= |t| && ParseSuffixes(t, i, e).Ok?
    ensures Even(t, i, ParseSuffixes(t, i, e).pos)
    decreases |t| - i, 0
  {
    hide Even, SkipSpaces, ParseBrace, ParseCall, Starts, FirstOp, ParseSuffixes;
    SuffixesAre(t, i, e);
    var j, p := SkipSpaces(t, i), ParseSuffixes(t, i, e).pos;
    var op := FirstOp(t, j, ["[", "(", "."]);
    if op == "" || op !in ["[", "(", "."] {
      SpacesPass(t, i);
    } else {
      TokenPasses(t, i, op);
      if op == "." {
        var m := ParseBrace(t, j + 1);
        BracePasses(t, j + 1);
        SuffixesPass(t, m.pos, Member(e, m.expr));
        EvenThen(t, j + 1, m.pos, p);
      } else if op == "[" {
        var k := SkipSpaces(t, j + 1);
        TokenPasses(t, j + 1, "]");
        SuffixesPass(t, k + 1, Indexed(e));
        EvenThen(t, j + 1, k + 1, p);
      } else {
        var c := ParseCall(t, j + 1, e);
        CallPasses(t, j + 1, e);
        SuffixesPass(t, c.pos, c.expr);
        EvenThen(t, j + 1, c.pos, p);
      }
      EvenThen(t, i, j + 1, p);
    }
  }

  lemma {:induction false} CallPasses(t: Text, i: nat, f: Expr)
    requires i <= |t| && ParseCall(t, i, f).Ok?
    ensures Even(t, i, ParseCall(t, i, f).pos)
    decreases |t| - i, 16
  {
    hide ParseArguments, Closed;
    var inner := if At(t, i) == ')' then Ok(Apply(f, NoExprs), i) else ParseArguments(t, i, f, NoExprs);
    if inner.Ok? && At(t, i) != ')' {
      ArgumentsPass(t, i, f, NoExprs);
    }
    ClosedPasses(t, i, inner);
  }

  lemma {:induction false} ArgumentsPass(t: Text, i: nat, f: Expr, done: Exprs)
    requires i <= |t| && ParseArguments(t, i, f, done).Ok?
    ensures Even(t, i, ParseArguments(t, i, f, done).pos)
    decreases |t| - i, 15
  {
    hide Even, SkipSpaces, ParseAssignment, Starts;
    var a, p := ParseAssignment(t, i), ParseArguments(t, i, f, done).pos;
    AssignmentPasses(t, i);
    var j := SkipSpaces(t, a.pos);
    if Starts(t, j, ",") {
      TokenPasses(t, a.pos, ",");
      ArgumentsPass(t, j + 1, f, AndExpr(done, a.expr));
      EvenThen(t, a.pos, j + 1, p);
    } else {
      SpacesPass(t, a.pos);
    }
    EvenThen(t, i, a.pos, p);
  }

  lemma {:induction false} PostfixPasses(t: Text, i: nat)
    requires i <= |t| && ParsePostfix(t, i).Ok?
    ensures Even(t, i, ParsePostfix(t, i).pos)
    decreases |t| - i, 2
  {
    hide Even, ParseBrace, ParseSuffixes;
    var b := ParseBrace(t, i);
    BracePasses(t, i);
    SuffixesPass(t, b.pos, b.expr);
    EvenThen(t, i, b.pos, ParsePostfix(t, i).pos);
  }

  lemma {:induction false} LevelPasses(level: nat, t: Text, i: nat)
    requires i <= |t| && level <= LAST_LEVEL && ParseLevel(level, t, i).Ok?
    ensures Even(t, i, ParseLevel(level, t, i).pos)
    decreases |t| - i, 3 + level
  {
    hide Even, SkipSpaces, ParsePostfix, ParseTail, FirstOp, Starts;
    var p := ParseLevel(level, t, i).pos;
    if level == 0 {
      var j := SkipSpaces(t, i);
      var op := FirstOp(t, j, ["~", "!"]);
      if op == "" {
        SpacesPass(t, i);
        PostfixPasses(t, j);
        EvenThen(t, i, j, p);
      } else {
        TokenPasses(t, i, op);
        LevelPasses(0, t, j + |op|);
        EvenThen(t, i, j + |op|, p);
      }
    } else {
      var first := ParseLevel(level - 1, t, i);
      LevelPasses(level - 1, t, i);
      TailPasses(level, t, first.pos, first.expr);
      EvenThen(t, i, first.pos, p);
    }
  }

  lemma {:induction false} TailPasses(level: nat, t: Text, i: nat, left: Expr)
    requires i <= |t| && 1 <= level <= LAST_LEVEL && ParseTail(level, t, i, left).Ok?
    ensures Even(t, i, ParseTail(level, t, i, left).pos)
    decreases |t| - i, 0
  {
    hide Even, SkipSpaces, ParseLevel, FirstOp, Starts, Operators, Guard;
    var j, p := SkipSpaces(t, i), ParseTail(level, t, i, left).pos;
    var op := FirstOp(t, j, Operators(level));
    if (Guard(level) != "" && Starts(t, j, Guard(level))) || op == "" {
      SpacesPass(t, i);
    } else {
      OperatorsAreCode(level, op);
      TokenPasses(t, i, op);
      var r := ParseLevel(level - 1, t, j + |op|);
      LevelPasses(level - 1, t, j + |op|);
      TailPasses(level, t, r.pos, Binary(op, left, r.expr));
      EvenThen(t, i, j + |op|, r.pos);
      EvenThen(t, i, r.pos, p);
    }
  }

  lemma {:induction false} ConditionalPasses(t: Text, i: nat)
    requires i <= |t| && ParseConditional(t, i).Ok?
    ensures Even(t, i, ParseConditional(t, i).pos)
    decreases |t| - i, 12
  {
    hide Even, SkipSpaces, ParseLevel, ParseBranches, Starts;
    var c, p := ParseLevel(LAST_LEVEL, t, i), ParseConditional(t, i).pos;
    LevelPasses(LAST_LEVEL, t, i);
    var j := SkipSpaces(t, c.pos);
    if Starts(t, j, "?") {
      TokenPasses(t, c.pos, "?");
      BranchesPass(t, j + 1, c.expr);
      EvenThen(t, c.pos, j + 1, p);
    } else {
      SpacesPass(t, c.pos);
    }
    EvenThen(t, i, c.pos, p);
  }

  lemma {:induction false} BranchesPass(t: Text, i: nat, c: Expr)
    requires i <= |t| && ParseBranches(t, i, c).Ok?
    ensures Even(t, i, ParseBranches(t, i, c).pos)
    decreases |t| - i, 12
  {
    hide Even, SkipSpaces, ParseLevel, Starts;
    var yes := ParseLevel(LAST_LEVEL, t, i);
    LevelPasses(LAST_LEVEL, t, i);
    var j := SkipSpaces(t, yes.pos);
    TokenPasses(t, yes.pos, ":");
    LevelPasses(LAST_LEVEL, t, j + 1);
    EvenThen(t, i, yes.pos, j + 1);
    EvenThen(t, i, j + 1, ParseBranches(t, i, c).pos);
  }

  lemma {:induction false} AssignmentPasses(t: Text, i: nat)
    requires i <= |t| && ParseAssignment(t, i).Ok?
    ensures Even(t, i, ParseAssignment(t, i).pos)
    decreases |t| - i, 13
  {
    hide Even, SkipSpaces, ParseConditional, Starts;
    var target, p := ParseConditional(t, i), ParseAssignment(t, i).pos;
    ConditionalPasses(t, i);
    var j := SkipSpaces(t, target.pos);
    if Starts(t, j, "=") {
      TokenPasses(t, target.pos, "=");
      ConditionalPasses(t, j + 1);
      EvenThen(t, target.pos, j + 1, p);
    } else {
      SpacesPass(t, target.pos);
    }
    EvenThen(t, i, target.pos, p);
  }

  lemma {:induction false} CommaPasses(t: Text, i: nat)
    requires i <= |t| && ParseComma(t, i).Ok?
    ensures Even(t, i, ParseComma(t, i).pos)
    decreases |t| - i, 14
  {
    hide Even, ParseAssignment, ParseCommaTail;
    var first := ParseAssignment(t, i);
    AssignmentPasses(t, i);
    CommaTailPasses(t, first.pos, first.expr);
    EvenThen(t, i, first.pos, ParseComma(t, i).pos);
  }

  lemma {:induction false} CommaTailPasses(t: Text, i: nat, left: Expr)
    requires i <= |t| && ParseCommaTail(t, i, left).Ok?
    ensures Even(t, i, ParseCommaTail(t, i, left).pos)
    decreases |t| - i, 0
  {
    hide Even, SkipSpaces, ParseAssignment, Starts;
    var j, p := SkipSpaces(t, i), ParseCommaTail(t, i, left).pos;
    if Starts(t, j, ",") {
      TokenPasses(t, i, ",");
      var r := ParseAssignment(t, j + 1);
      AssignmentPasses(t, j + 1);
      CommaTailPasses(t, r.pos, Comma(left, r.expr));
      EvenThen(t, i, j + 1, r.pos);
      EvenThen(t, i, r.pos, p);
    } else {
      SpacesPass(t, i);
    }
  }
}
