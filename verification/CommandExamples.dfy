/**
 * Two commands in which a foreach without an object ends a block early (navit/command.c): in the first the
 * run goes astray, in the second, which leaves a brace open, run and walk meet nevertheless.
 */
module CommandExamples {
  import opened Wrappers
  import opened CommandTree
  import opened CommandGrammar
  import opened CommandMeaning
  import opened CommandSteps
  import opened CommandBraces
  import opened CommandRuns
  import opened CommandSteady

  const HEAD: string := "if(1){foreach(x;5)y;"
  const LEFT_BLOCK: string := "if(1){foreach(x;5)y;z;}"
  const OPEN_BLOCK: string := "if(1){foreach(x;5)y;elsewhere"

  predicate Ends(c: char) { c == ';' || c == ')' || c == '}' || c == '\0' }

  lemma {:induction false} OperatorStarts(level: nat, c: char)
    requires 1 <= level <= LAST_LEVEL && Ends(c)
    ensures forall k :: 0 <= k < |Operators(level)| ==> Operators(level)[k] != "" && Operators(level)[k][0] != c
    ensures Guard(level) != "" ==> Guard(level)[0] != c
  {
  }

  /** A value with nothing behind it but an end, read as an operand of any level */
  lemma {:induction false} ValueAtLevel(level: nat, t: Text, i: nat, e: Expr, p: nat)
    requires i <= |t| && p <= |t| && ParseBrace(t, i) == Ok(e, p) && Ends(At(t, p))
    requires !IsSpace(At(t, i)) && At(t, i) != '~' && At(t, i) != '!' && level <= LAST_LEVEL
    ensures ParseLevel(level, t, i) == Ok(e, p)
  {
    hide ParseBrace;
    hide FirstOp, Starts, Operators, Guard;
    if level == 0 {
      NoOperator(t, i, ["~", "!"]);
      NoOperator(t, p, ["[", "(", "."]);
      assert SkipSpaces(t, i) == i && SkipSpaces(t, p) == p;
      assert ParseSuffixes(t, p, e) == Ok(e, p);
      assert ParsePostfix(t, i) == Ok(e, p);
    } else {
      OperatorStarts(level, At(t, p));
      ValueAtLevel(level - 1, t, i, e, p);
      NoOperator(t, p, Operators(level));
      StartsAt(t, p, Guard(level));
    }
  }

  /** The same, read as a whole expression */
  lemma ValueAlone(t: Text, i: nat, e: Expr, p: nat)
    requires i <= |t| && p <= |t| && ParseBrace(t, i) == Ok(e, p) && Ends(At(t, p))
    requires !IsSpace(At(t, i)) && At(t, i) != '~' && At(t, i) != '!'
    ensures ParseConditional(t, i) == Ok(e, p) && ParseComma(t, i) == Ok(e, p)
  {
    hide ParseBrace, ParseLevel;
    ValueAtLevel(LAST_LEVEL, t, i, e, p);
    StartsAt(t, p, "?");
    StartsAt(t, p, "=");
    StartsAt(t, p, ",");
  }

  lemma LetterAlone(t: Text, i: nat)
    requires i < |t| && IsLetter(t[i]) && Ends(At(t, i + 1))
    ensures ParseConditional(t, i) == Ok(Name(t[i..i + 1]), i + 1) && ParseComma(t, i) == Ok(Name(t[i..i + 1]), i + 1)
  {
    StartsAt(t, i, "(");
    assert WordEnd(t, i) == i + 1;
    ValueAlone(t, i, Name(t[i..i + 1]), i + 1);
  }

  lemma DigitAlone(t: Text, i: nat)
    requires i < |t| && IsDigit(t[i]) && Ends(At(t, i + 1))
    ensures ParseComma(t, i) == Ok(Literal(IntAttr(t[i] as int - '0' as int)), i + 1)
  {
    StartsAt(t, i, "(");
    assert NumberEnd(t, i, 0) == Upto(i + 1);
    assert t[i..i + 1] == [t[i]];
    assert Digits(t, i, 0) == Digits(t, i + 1, t[i] as int - '0' as int) == t[i] as int - '0' as int;
    ValueAlone(t, i, Literal(IntAttr(t[i] as int - '0' as int)), i + 1);
  }

  lemma NoKeyword(t: Text, i: nat)
    requires i < |t| && IsLetter(t[i]) && (t[i] != 'f' && t[i] != 'i')
    ensures FirstOp(t, i, ["foreach", "if", "{"]) == ""
  {
    NoOperator(t, i, ["foreach", "if", "{"]);
  }

  /** A letter and a semicolon are a statement. */
  lemma LetterStatement(t: Text, i: nat)
    requires i + 1 < |t| && IsLetter(t[i]) && t[i] != 'f' && t[i] != 'i' && t[i + 1] == ';'
    ensures ParseStatement(t, i) == Statement(Plain(Name(t[i..i + 1]), true), i + 2, true)
  {
    hide ParseComma, ParseForeach, ParseIf, ParseBlock;
    LetterAlone(t, i);
    NoKeyword(t, i);
    StartsAt(t, i + 1, ";");
  }

  /** What both commands start with */
  lemma HeadReads(t: Text)
    requires HEAD <= t
    ensures ParseCondition(t, 2) == Ok(Literal(IntAttr(1)), 5)
    ensures ParseVariable(t, 13).Ok? && ParseVariable(t, 13).pos == 16
    ensures Closed(t, ParseComma(t, 16)) == Ok(Literal(IntAttr(5)), 18)
    ensures ParseStatement(t, 18).Statement? && ParseStatement(t, 18).pos == 20 && ParseStatement(t, 18).complete
  {
    hide ParseComma, ParseConditional, ParseStatement, Starts;
    assert forall k :: 0 <= k < 20 ==> t[k] == HEAD[k];
    DigitAlone(t, 3);
    StartsAt(t, 2, "(");
    StartsAt(t, 4, ")");
    LetterAlone(t, 14);
    StartsAt(t, 13, "(");
    StartsAt(t, 15, ";");
    DigitAlone(t, 16);
    StartsAt(t, 17, ")");
    LetterStatement(t, 18);
  }

  lemma {:induction false} Keyword(t: Text, i: nat)
    ensures FirstOp(t, i, ["foreach", "if", "{"]) ==
      if Starts(t, i, "foreach") then "foreach" else if Starts(t, i, "if") then "if"
      else if Starts(t, i, "{") then "{" else ""
  {
    hide Starts;
    assert ["foreach", "if", "{"][1..] == ["if", "{"] && ["if", "{"][1..] == ["{"] && ["{"][1..] == [];
    assert FirstOp(t, i, ["{"]) == if Starts(t, i, "{") then "{" else "";
    assert FirstOp(t, i, ["if", "{"]) == if Starts(t, i, "if") then "if" else FirstOp(t, i, ["{"]);
  }

  lemma FirstWord(t: Text)
    requires HEAD <= t
    ensures SkipSpaces(t, 0) == 0 && FirstOp(t, 0, ["foreach", "if", "{"]) == "if"
  {
    hide FirstOp;
    assert t[0] == HEAD[0] == 'i' && HEAD[0..2] == "if";
    Keyword(t, 0);
    HeadSlice(t, 0, "if");
    StartsAt(t, 0, "foreach");
  }

  lemma SecondWord(t: Text)
    requires HEAD <= t
    ensures SkipSpaces(t, 5) == 5 && FirstOp(t, 5, ["foreach", "if", "{"]) == "{"
  {
    hide FirstOp;
    assert t[5] == HEAD[5] == '{' && HEAD[5..6] == "{";
    Keyword(t, 5);
    HeadSlice(t, 5, "{");
    StartsAt(t, 5, "foreach");
    StartsAt(t, 5, "if");
  }

  lemma ThirdWord(t: Text)
    requires HEAD <= t
    ensures SkipSpaces(t, 6) == 6 && FirstOp(t, 6, ["foreach", "if", "{"]) == "foreach" && !Starts(t, 6, "}")
  {
    hide FirstOp;
    assert t[6] == HEAD[6] == 'f';
    assert HEAD[6..13] == "foreach";
    Keyword(t, 6);
    HeadSlice(t, 6, "foreach");
    StartsAt(t, 6, "}");
  }

  lemma HeadWords(t: Text)
    requires HEAD <= t
    ensures SkipSpaces(t, 0) == 0 && FirstOp(t, 0, ["foreach", "if", "{"]) == "if"
    ensures SkipSpaces(t, 5) == 5 && FirstOp(t, 5, ["foreach", "if", "{"]) == "{"
    ensures SkipSpaces(t, 6) == 6 && FirstOp(t, 6, ["foreach", "if", "{"]) == "foreach" && !Starts(t, 6, "}")
  {
    hide SkipSpaces, FirstOp, Starts;
    FirstWord(t);
    SecondWord(t);
    ThirdWord(t);
  }

  lemma HeadSlice(t: Text, i: nat, op: string)
    requires HEAD <= t && i + |op| <= 20 && HEAD[i..i + |op|] == op
    ensures Starts(t, i, op)
  {
    forall k | 0 <= k < |op|
      ensures t[i + k] == op[k]
    {
      assert HEAD[i..i + |op|][k] == HEAD[i + k];
    }
    StartsAt(t, i, op);
  }

  /** The block is left behind the foreach, which has no object. */
  lemma HeadLeaves(env: Env, t: Text, log: Log)
    requires HEAD <= t
    ensures Step(env, t, 5, log) == Stop(false, 20, log, 1)
    ensures ParseStatement(t, 6).Statement? && ParseStatement(t, 6).pos == 20 && ParseStatement(t, 6).complete
  {
    hide ParseVariable, ParseComma, Closed, ParseStatement, SkipSpaces, Starts, FirstOp;
    HeadReads(t);
    HeadWords(t);
    assert StepForeach(env, t, 13, log) == Stop(false, 20, log, 0);
    assert Step(env, t, 6, log) == Stop(false, 20, log, 0);
    assert StepBlock(env, t, 6, log, 0) == Stop(false, 20, log, 1);
    ForeachReads(t);
  }

  lemma ForeachReads(t: Text)
    requires HEAD <= t
    ensures ParseStatement(t, 6).Statement? && ParseStatement(t, 6).pos == 20 && ParseStatement(t, 6).complete
  {
    hide ParseVariable, ParseComma, Closed, SkipSpaces, Starts, FirstOp;
    HeadReads(t);
    HeadWords(t);
    var body := ParseStatement(t, 18);
    assert ParseForeach(t, 13).Statement? && ParseForeach(t, 13).pos == 20 && ParseForeach(t, 13).complete;
  }

  /** The `if` of a command that starts so: its block is left at 20, or walked over to its end. */
  lemma HeadSteps(env: Env, t: Text, log: Log)
    requires HEAD <= t
    ensures Step(env, t, 0, log) == StepElse(env, t, 20, true, log, 1)
    ensures ParseStatement(t, 6).Statement?
    ensures ParseBlock(t, 6, NoStmts) == ParseBlock(t, 20, AndStmt(NoStmts, ParseStatement(t, 6).stmt))
    ensures ParseStatement(t, 5) == ParseBlock(t, 6, NoStmts)
    ensures ParseStatement(t, 0) == ParseThen(t, 5, Literal(IntAttr(1)))
  {
    hide ParseComma, Closed, SkipSpaces, Starts, FirstOp, ParseCondition, StepElse, ParseThen, ParseForeach;
    HeadReads(t);
    HeadWords(t);
    HeadLeaves(env, t, log);
    assert Decided(env, Literal(IntAttr(1)), log) == Number(1, Result(IntAttr(1), "", ""), log);
    assert StepThen(env, t, 5, true, log) == StepElse(env, t, 20, true, log, 1);
    assert StepIf(env, t, 2, log) == StepElse(env, t, 20, true, log, 1);
  }

  /** Where an `if` goes on in the middle of its block, while the walk goes to the end of the block */
  lemma LeftBlock(env: Env, log: Log)
    ensures Step(env, LEFT_BLOCK, 0, log) == Stop(true, 20, log, 1)
    ensures ParseStatement(LEFT_BLOCK, 0).Statement? && ParseStatement(LEFT_BLOCK, 0).pos == 23
    ensures Even(LEFT_BLOCK, 0, 23)
  {
    hide Step, ParseStatement;
    var t: Text := LEFT_BLOCK;
    HeadSteps(env, t, log);
    StartsAt(t, 20, "else");
    StartsAt(t, 20, "}");
    LetterStatement(t, 20);
    StartsAt(t, 22, "}");
    StartsAt(t, 23, "else");
    LeftBlockIsEven();
  }

  lemma OneBrace(t: Text, i: nat)
    requires i < |t| && (t[i] == '{' || t[i] == '}')
    ensures Braces(t, i, i + 1) == Some(if t[i] == '{' then 1 else -1)
  {
    assert Braces(t, i + 1, i + 1) == Some(0);
  }

  lemma HeadIsCode(t: Text)
    requires HEAD <= t
    ensures t[5] == '{' && Even(t, 0, 5) && Even(t, 6, 20)
  {
    hide Braces;
    assert forall k :: 0 <= k < 20 ==> t[k] == HEAD[k];
    CodePasses(t, 0, 5);
    CodePasses(t, 6, 20);
  }

  /** What both start with leaves one brace open. */
  lemma HeadOpens(t: Text)
    requires HEAD <= t
    ensures Braces(t, 0, 20) == Some(1)
  {
    HeadIsCode(t);
    hide Braces, IsCode;
    OneBrace(t, 5);
    BracesAdd(t, 0, 5, 6);
    BracesAdd(t, 0, 6, 20);
  }

  lemma TailOfLeft(t: Text)
    requires t == LEFT_BLOCK
    ensures Even(t, 20, 22) && Braces(t, 22, 23) == Some(-1)
  {
    hide Braces;
    CodePasses(t, 20, 22);
    OneBrace(t, 22);
  }

  lemma LeftBlockIsEven()
    ensures Even(LEFT_BLOCK, 0, 23)
  {
    hide Braces;
    var t: Text := LEFT_BLOCK;
    TailOfLeft(t);
    HeadOpens(t);
    BracesAdd(t, 0, 20, 22);
    BracesAdd(t, 0, 22, 23);
  }

  lemma OpenBlockWords()
    ensures SkipSpaces(OPEN_BLOCK, 20) == 20 && SkipSpaces(OPEN_BLOCK, 29) == 29
    ensures Starts(OPEN_BLOCK, 20, "else") && !Starts(OPEN_BLOCK, 20, "}") && !Starts(OPEN_BLOCK, 29, "else")
  {
    var t: Text := OPEN_BLOCK;
    assert t[20] == 'e' && t[20..24] == "else";
    StartsAt(t, 20, "}");
  }

  /** With an open brace, run and walk may meet though a block was left: here the run reads an `else`. */
  lemma OpenBlock(env: Env, log: Log)
    ensures Step(env, OPEN_BLOCK, 0, log) == Stop(true, 29, log, 1)
    ensures ParseStatement(OPEN_BLOCK, 0).Statement? && ParseStatement(OPEN_BLOCK, 0).pos == 29
    ensures Braces(OPEN_BLOCK, 0, 29) == Some(1)
  {
    hide Step, ParseStatement, SkipSpaces, Starts, Braces;
    var t: Text := OPEN_BLOCK;
    OpenBlockIsOpen();
    OpenBlockWords();
    HeadSteps(env, t, log);
    WordStatement(t, 20);
    WordStatement(t, 24);
  }

  lemma TailIsCode(t: Text)
    requires t == OPEN_BLOCK
    ensures Even(t, 20, 29)
  {
    hide Braces;
    CodePasses(t, 20, 29);
  }

  lemma OpenBlockIsOpen()
    ensures Braces(OPEN_BLOCK, 0, 29) == Some(1)
  {
    hide Braces;
    var t: Text := OPEN_BLOCK;
    TailIsCode(t);
    HeadOpens(t);
    BracesAdd(t, 0, 20, 29);
  }

  /** A word at the end of the text, which lacks its semicolon */
  lemma WordStatement(t: Text, i: nat)
    requires t == OPEN_BLOCK && (i == 20 || i == 24)
    ensures ParseStatement(t, i).Statement? && ParseStatement(t, i).pos == 29 && !ParseStatement(t, i).complete
  {
    hide ParseComma, ParseForeach, ParseIf, ParseBlock, FirstOp, Starts;
    assert t[i] == OPEN_BLOCK[i];
    WordReads(t, i);
    NoKeyword(t, i);
    StartsAt(t, 29, ";");
  }

  lemma WordReads(t: Text, i: nat)
    requires t == OPEN_BLOCK && (i == 20 || i == 24)
    ensures ParseComma(t, i).Ok? && ParseComma(t, i).pos == 29
  {
    hide ParseComma, WordEnd;
    assert t[i] == OPEN_BLOCK[i] && IsLetter(t[i]);
    LettersTo(t, i);
    StartsAt(t, i, "(");
    assert NameEnd(t, i) == 29;
    assert ParseBrace(t, i) == Ok(Name(t[i..29]), 29);
    ValueAlone(t, i, Name(t[i..29]), 29);
  }

  lemma {:induction false} LettersTo(t: Text, i: nat)
    requires t == OPEN_BLOCK && 20 <= i <= 29
    ensures WordEnd(t, i) == 29
    decreases 29 - i
  {
    if i < 29 {
      LettersTo(t, i + 1);
    }
  }

  /** The number ends before the exponent, but its value counts it. */
  lemma ExponentReads()
    ensures ParseNumber("0.5e1", 0) == Ok(Literal(DoubleAttr(5)), 3)
  {
    var t: Text := "0.5e1";
    assert NumberEnd(t, 0, 0) == NumberEnd(t, 1, 0) == NumberEnd(t, 2, 1) == NumberEnd(t, 3, 1) == Upto(3);
    assert t[0..3][1] == '.' && t[3] == 'e' && t[4] == '1';
    assert DigitsEnd(t, 0) == DigitsEnd(t, 1) == 1 && DigitsEnd(t, 2) == DigitsEnd(t, 3) == 3;
    assert Digits(t, 0, 0) == Digits(t, 1, 0) == 0;
    assert Digits(t, 2, 0) == Digits(t, 3, 5) == 5;
    assert Digits(t, 4, 0) == Digits(t, 5, 1) == 1;
    assert Scaled(5, 0) == 5;
  }

  /** The block that can be left makes the statement unsteady. */
  lemma LeftBlockIsUnsteady(env: Env)
    ensures ParseStatement(LEFT_BLOCK, 0).Statement? && !Steady(ParseStatement(LEFT_BLOCK, 0).stmt)
  {
    hide Step, ParseStatement, Steady;
    LeftBlock(env, []);
    if Steady(ParseStatement(LEFT_BLOCK, 0).stmt) {
      SteadyEnds(env, LEFT_BLOCK, 0, []);
    }
  }
}
