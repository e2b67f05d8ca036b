/**
 * Where executing statements ends, and where walking over them does (navit/command.c): the same, exactly
 * if no executed block was left before its closing brace.
 */
module CommandEnds {
  import opened Wrappers
  import opened CommandTree
  import opened CommandGrammar
  import opened CommandMeaning
  import opened CommandSteps
  import opened CommandBraces

  lemma OpensThen(t: Text, i: nat, j: nat, k: nat, m: int, n: int)
    requires Opens(t, i, j, m) && Opens(t, j, k, n)
    ensures Opens(t, i, k, m + n)
  {
    BracesAdd(t, i, j, k);
  }

  lemma EvenOpens(t: Text, i: nat, j: nat)
    requires Even(t, i, j)
    ensures Opens(t, i, j, 0)
  {
  }

  lemma KeywordOpens(t: Text, i: nat, op: string)
    requires i <= |t| && Starts(t, SkipSpaces(t, i), op) && forall k :: 0 <= k < |op| ==> IsCode(op[k])
    ensures SkipSpaces(t, i) + |op| <= |t| && Opens(t, i, SkipSpaces(t, i) + |op|, 0)
  {
    hide Opens, Even;
    TokenPasses(t, i, op);
    EvenOpens(t, i, SkipSpaces(t, i) + |op|);
  }

  /** Spaces and a brace */
  lemma BraceOpens(t: Text, i: nat, brace: string)
    requires i <= |t| && (brace == "{" || brace == "}") && Starts(t, SkipSpaces(t, i), brace)
    ensures SkipSpaces(t, i) < |t| && Opens(t, i, SkipSpaces(t, i) + 1, if brace == "{" then 1 else -1)
  {
    var j := SkipSpaces(t, i);
    assert t[j] == t[j..j + 1][0];
    SpacesPass(t, i);
    assert Braces(t, j + 1, j + 1) == Some(0);
    BracesAdd(t, i, j, j + 1);
  }

  lemma CommaOpens(t: Text, i: nat)
    requires i <= |t|
    ensures ParseComma(t, i).Ok? ==> Opens(t, i, ParseComma(t, i).pos, 0)
    ensures Closed(t, ParseComma(t, i)).Ok? ==> Opens(t, i, Closed(t, ParseComma(t, i)).pos, 0)
  {
    hide Even, ParseComma, Closed;
    if ParseComma(t, i).Ok? {
      CommaPasses(t, i);
      EvenOpens(t, i, ParseComma(t, i).pos);
    }
    ClosedPasses(t, i, ParseComma(t, i));
    if Closed(t, ParseComma(t, i)).Ok? {
      EvenOpens(t, i, Closed(t, ParseComma(t, i)).pos);
    }
  }

  /** A simple statement, up to where it ends */
  lemma PlainOpens(t: Text, i: nat)
    requires i <= |t| && ParseComma(t, SkipSpaces(t, i)).Ok?
    ensures var k := SkipSpaces(t, ParseComma(t, SkipSpaces(t, i)).pos);
      Opens(t, i, if Starts(t, k, ";") then k + 1 else k, 0)
  {
    hide Even, Opens, SkipSpaces, ParseComma, Starts;
    var j := SkipSpaces(t, i);
    var p := ParseComma(t, j).pos;
    var k := SkipSpaces(t, p);
    SpacesPass(t, i);
    EvenOpens(t, i, j);
    CommaOpens(t, j);
    OpensThen(t, i, j, p, 0, 0);
    if Starts(t, k, ";") {
      KeywordOpens(t, p, ";");
      OpensThen(t, i, p, k + 1, 0, 0);
    } else {
      SpacesPass(t, p);
      EvenOpens(t, p, k);
      OpensThen(t, i, p, k, 0, 0);
    }
  }

  lemma ConditionOpens(t: Text, i: nat)
    requires i <= |t| && ParseCondition(t, i).Ok?
    ensures Opens(t, i, ParseCondition(t, i).pos, 0)
  {
    hide Even, Opens, SkipSpaces, ParseComma, Starts, Closed;
    var j := SkipSpaces(t, i);
    KeywordOpens(t, i, "(");
    CommaOpens(t, j + 1);
    OpensThen(t, i, j + 1, ParseCondition(t, i).pos, 0, 0);
  }

  lemma VariableOpens(t: Text, i: nat)
    requires i <= |t| && ParseVariable(t, i).Ok?
    ensures Opens(t, i, ParseVariable(t, i).pos, 0)
  {
    hide Even, Opens, SkipSpaces, ParseConditional, Starts;
    var j := SkipSpaces(t, i);
    var p := ParseConditional(t, j + 1).pos;
    KeywordOpens(t, i, "(");
    ConditionalPasses(t, j + 1);
    EvenOpens(t, j + 1, p);
    KeywordOpens(t, p, ";");
    OpensThen(t, i, j + 1, p, 0, 0);
    OpensThen(t, i, p, ParseVariable(t, i).pos, 0, 0);
  }

  /** The head of a foreach */
  lemma HeadOpens(t: Text, i: nat)
    requires i <= |t| && ParseVariable(t, i).Ok? && Closed(t, ParseComma(t, ParseVariable(t, i).pos)).Ok?
    ensures Opens(t, i, Closed(t, ParseComma(t, ParseVariable(t, i).pos)).pos, 0)
  {
    hide Opens, ParseVariable, ParseComma, Closed;
    var p := ParseVariable(t, i).pos;
    VariableOpens(t, i);
    CommaOpens(t, p);
    OpensThen(t, i, p, Closed(t, ParseComma(t, p)).pos, 0, 0);
  }

  // ------------------------------------------------- braces of a walked statement

  lemma {:induction false} WalkOpens(t: Text, i: nat)
    requires i <= |t| && ParseStatement(t, i).Statement?
    ensures Opens(t, i, ParseStatement(t, i).pos, 0)
    decreases |t| - i, 1
  {
    hide Opens, SkipSpaces, FirstOp, Starts, ParseComma, ParseForeach, ParseCondition, ParseThen, ParseBlock;
    var j := SkipSpaces(t, i);
    var op := FirstOp(t, j, ["foreach", "if", "{"]);
    var p := ParseStatement(t, i).pos;
    if op == "foreach" {
      KeywordOpens(t, i, op);
      ForeachWalkOpens(t, j + 7);
      OpensThen(t, i, j + 7, p, 0, 0);
    } else if op == "if" {
      KeywordOpens(t, i, op);
      var c := ParseCondition(t, j + 2);
      ConditionOpens(t, j + 2);
      ThenWalkOpens(t, c.pos, c.expr);
      OpensThen(t, i, j + 2, c.pos, 0, 0);
      OpensThen(t, i, c.pos, p, 0, 0);
    } else if op == "{" {
      BraceOpens(t, i, op);
      BlockWalkOpens(t, j + 1, NoStmts);
      OpensThen(t, i, j + 1, p, 1, -1);
    } else {
      PlainOpens(t, i);
    }
  }

  lemma {:induction false} ForeachWalkOpens(t: Text, i: nat)
    requires i <= |t| && ParseForeach(t, i).Statement?
    ensures Opens(t, i, ParseForeach(t, i).pos, 0)
    decreases |t| - i, 0
  {
    hide Opens, ParseVariable, ParseComma, Closed, ParseStatement;
    var q := Closed(t, ParseComma(t, ParseVariable(t, i).pos)).pos;
    HeadOpens(t, i);
    WalkOpens(t, q);
    OpensThen(t, i, q, ParseForeach(t, i).pos, 0, 0);
  }

  lemma {:induction false} ThenWalkOpens(t: Text, i: nat, c: Expr)
    requires i <= |t| && ParseThen(t, i, c).Statement?
    ensures Opens(t, i, ParseThen(t, i, c).pos, 0)
    decreases |t| - i, 2
  {
    hide Opens, ParseStatement, SkipSpaces, Starts;
    var yes, p := ParseStatement(t, i), ParseThen(t, i, c).pos;
    WalkOpens(t, i);
    var l := SkipSpaces(t, yes.pos);
    if Starts(t, l, "else") {
      KeywordOpens(t, yes.pos, "else");
      WalkOpens(t, l + 4);
      OpensThen(t, yes.pos, l + 4, p, 0, 0);
    } else {
      SpacesPass(t, yes.pos);
      EvenOpens(t, yes.pos, l);
    }
    OpensThen(t, i, yes.pos, p, 0, 0);
  }

  lemma {:induction false} BlockWalkOpens(t: Text, i: nat, done: Stmts)
    requires i <= |t| && ParseBlock(t, i, done).Statement?
    ensures Opens(t, i, ParseBlock(t, i, done).pos, -1)
    decreases |t| - i, 2
  {
    hide Opens, ParseStatement, SkipSpaces, Starts;
    var j, p := SkipSpaces(t, i), ParseBlock(t, i, done).pos;
    if Starts(t, j, "}") {
      BraceOpens(t, i, "}");
    } else {
      var r := ParseStatement(t, j);
      SpacesPass(t, i);
      EvenOpens(t, i, j);
      WalkOpens(t, j);
      OpensThen(t, i, j, r.pos, 0, 0);
      if r.complete {
        BlockWalkOpens(t, r.pos, AndStmt(done, r.stmt));
        OpensThen(t, i, r.pos, p, 0, -1);
      } else {
        OpensMore(t, i, p);
      }
    }
  }

  lemma OpensMore(t: Text, i: nat, j: nat)
    requires Opens(t, i, j, 0)
    ensures Opens(t, i, j, -1)
  {
  }

  // ------------------------------------------- braces of an executed statement

  /** An executed statement has opened at least as many braces too many as it left blocks. */
  lemma {:induction false} StepOpens(env: Env, t: Text, i: nat, log: Log)
    requires i <= |t| && Step(env, t, i, log).Stop?
    ensures Opens(t, i, Step(env, t, i, log).pos, Step(env, t, i, log).cut)
    decreases |t| - i, 1, 0
  {
    hide Opens, SkipSpaces, FirstOp, Starts, ParseComma, StepForeach, ParseCondition, StepThen, StepBlock, Run, Decided;
    var j := SkipSpaces(t, i);
    var op := FirstOp(t, j, ["foreach", "if", "{"]);
    var r := Step(env, t, i, log);
    if op == "foreach" {
      KeywordOpens(t, i, op);
      ForeachStepOpens(env, t, j + 7, log);
      OpensThen(t, i, j + 7, r.pos, 0, r.cut);
    } else if op == "if" {
      KeywordOpens(t, i, op);
      var c := ParseCondition(t, j + 2);
      var d := Decided(env, c.expr, log);
      ConditionOpens(t, j + 2);
      ThenStepOpens(env, t, c.pos, d.value != 0, d.log);
      OpensThen(t, i, j + 2, c.pos, 0, 0);
      OpensThen(t, i, c.pos, r.pos, 0, r.cut);
    } else if op == "{" {
      BraceOpens(t, i, op);
      BlockStepOpens(env, t, j + 1, log, 0);
      OpensThen(t, i, j + 1, r.pos, 1, r.cut - 1);
    } else {
      PlainOpens(t, i);
    }
  }

  lemma {:induction false} EitherOpens(env: Env, t: Text, i: nat, log: Log, step: bool)
    requires i <= |t| && StepOrWalk(env, t, i, log, step).Stop?
    ensures var r := StepOrWalk(env, t, i, log, step); Opens(t, i, r.pos, r.cut)
    decreases |t| - i, 2, 0
  {
    hide Opens, Step, ParseStatement;
    if step {
      StepOpens(env, t, i, log);
    } else {
      WalkOpens(t, i);
    }
  }

  lemma {:induction false} ThenStepOpens(env: Env, t: Text, i: nat, yes: bool, log: Log)
    requires i <= |t| && StepThen(env, t, i, yes, log).Stop?
    ensures var r := StepThen(env, t, i, yes, log); Opens(t, i, r.pos, r.cut)
    decreases |t| - i, 3, 0
  {
    hide Opens, StepOrWalk, SkipSpaces, Starts;
    var first, r := StepOrWalk(env, t, i, log, yes), StepThen(env, t, i, yes, log);
    EitherOpens(env, t, i, log, yes);
    var l := SkipSpaces(t, first.pos);
    if Starts(t, l, "else") {
      var second := StepOrWalk(env, t, l + 4, first.log, !yes);
      KeywordOpens(t, first.pos, "else");
      EitherOpens(env, t, l + 4, first.log, !yes);
      OpensThen(t, first.pos, l + 4, r.pos, 0, second.cut);
      OpensThen(t, i, first.pos, r.pos, first.cut, second.cut);
    } else {
      SpacesPass(t, first.pos);
      EvenOpens(t, first.pos, l);
      OpensThen(t, i, first.pos, r.pos, first.cut, 0);
    }
  }

  lemma {:induction false} BlockStepOpens(env: Env, t: Text, i: nat, log: Log, cut: nat)
    requires i <= |t| && StepBlock(env, t, i, log, cut).Stop?
    ensures var r := StepBlock(env, t, i, log, cut); Opens(t, i, r.pos, r.cut - cut - 1)
    decreases |t| - i, 2, 0
  {
    hide Opens, Step, SkipSpaces, Starts;
    var j, r := SkipSpaces(t, i), StepBlock(env, t, i, log, cut);
    if Starts(t, j, "}") {
      BraceOpens(t, i, "}");
    } else {
      var one := Step(env, t, j, log);
      SpacesPass(t, i);
      EvenOpens(t, i, j);
      StepOpens(env, t, j, log);
      OpensThen(t, i, j, one.pos, 0, one.cut);
      if one.ret {
        BlockStepOpens(env, t, one.pos, one.log, cut + one.cut);
        OpensThen(t, i, one.pos, r.pos, one.cut, r.cut - cut - one.cut - 1);
      }
    }
  }

  lemma {:induction false} ForeachStepOpens(env: Env, t: Text, i: nat, log: Log)
    requires i <= |t| && StepForeach(env, t, i, log).Stop?
    ensures var r := StepForeach(env, t, i, log); Opens(t, i, r.pos, r.cut)
    decreases |t| - i, 1, 0
  {
    hide Opens, ParseVariable, ParseComma, Closed, ParseStatement, Run, StepEach;
    var v := ParseVariable(t, i);
    var source := Closed(t, ParseComma(t, v.pos));
    var q, r := source.pos, StepForeach(env, t, i, log);
    var b := ParseStatement(t, q);
    HeadOpens(t, i);
    WalkOpens(t, q);
    var run := Run(env, source.expr, log);
    if b.complete && run.res.attr.ObjectAttr? && run.res.attr.obj != 0 {
      var a, l := env.oracle(|run.log|), run.log + [Iterate(run.res.attr, run.res.attrn)];
      if a.found {
        EachStepOpens(env, t, v.expr, q, b.pos, a.items, l);
      }
    }
    OpensThen(t, i, q, r.pos, 0, r.cut);
  }

  lemma {:induction false} EachStepOpens(env: Env, t: Text, v: Expr, body: nat, end: nat, items: seq<Attr>, log: Log)
    requires body < end <= |t| && StepEach(env, t, v, body, end, items, log).Stop? && Opens(t, body, end, 0)
    ensures var r := StepEach(env, t, v, body, end, items, log); Opens(t, body, r.pos, r.cut)
    decreases |t| - body, 2, |items|
  {
    hide Opens, Step, Run;
    if items != [] {
      var r := Run(env, v, log);
      var l := Assigned(env, OnRoot(env, r.res), Result(items[0], "", ""), r.log).1;
      StepOpens(env, t, body, l);
      if Step(env, t, body, l).ret {
        EachStepOpens(env, t, v, body, end, items[1..], Step(env, t, body, l).log);
      }
    }
  }

  // -------------------------------------------------------------- alignment

  /** Without a block left early, an executed statement ends where the walk ends. */
  ghost predicate Aligned(s: StatementParse, r: Stop) {
    r.Stop? && r.cut == 0 ==> s.Statement? && s.pos == r.pos && (r.ret ==> s.complete)
  }

  lemma {:induction false} StepAligned(env: Env, t: Text, i: nat, log: Log)
    requires i <= |t|
    ensures Aligned(ParseStatement(t, i), Step(env, t, i, log))
    decreases |t| - i, 1, 0
  {
    hide SkipSpaces, FirstOp, Starts, ParseComma, StepForeach, ParseForeach, ParseCondition, StepThen, ParseThen,
      StepBlock, ParseBlock, Run, Decided;
    var j := SkipSpaces(t, i);
    var op := FirstOp(t, j, ["foreach", "if", "{"]);
    if op != "" {
      OperatorFits(t, j, op);
    }
    if op == "foreach" {
      ForeachAligned(env, t, j + 7, log);
    } else if op == "if" {
      var c := ParseCondition(t, j + 2);
      if c.Ok? && Decided(env, c.expr, log).Number? {
        var d := Decided(env, c.expr, log);
        ThenAligned(env, t, c.pos, c.expr, d.value != 0, d.log);
      }
    } else if op == "{" {
      BlockAligned(env, t, j + 1, log, 0, NoStmts);
    }
  }

  lemma {:induction false} EitherAligned(env: Env, t: Text, i: nat, log: Log, step: bool)
    requires i <= |t|
    ensures Aligned(ParseStatement(t, i), StepOrWalk(env, t, i, log, step))
    decreases |t| - i, 2, 0
  {
    hide Step, ParseStatement;
    if step {
      StepAligned(env, t, i, log);
    }
  }

  lemma {:induction false} ThenAligned(env: Env, t: Text, i: nat, c: Expr, yes: bool, log: Log)
    requires i <= |t|
    ensures Aligned(ParseThen(t, i, c), StepThen(env, t, i, yes, log))
    decreases |t| - i, 3, 0
  {
    hide StepOrWalk, ParseStatement, SkipSpaces, Starts;
    var first := StepOrWalk(env, t, i, log, yes);
    EitherAligned(env, t, i, log, yes);
    if first.Stop? && Starts(t, SkipSpaces(t, first.pos), "else") {
      ElseFits(t, SkipSpaces(t, first.pos));
      EitherAligned(env, t, SkipSpaces(t, first.pos) + 4, first.log, !yes);
    }
  }

  lemma ElseFits(t: Text, i: nat)
    requires Starts(t, i, "else")
    ensures i + 4 <= |t|
  {
  }

  lemma {:induction false} BlockAligned(env: Env, t: Text, i: nat, log: Log, cut: nat, done: Stmts)
    requires i <= |t|
    ensures var r, s := StepBlock(env, t, i, log, cut), ParseBlock(t, i, done);
      r.Stop? && r.cut == cut ==> s.Statement? && s.pos == r.pos && s.complete && r.ret
    decreases |t| - i, 2, 0
  {
    hide Step, ParseStatement, SkipSpaces, Starts;
    var j := SkipSpaces(t, i);
    if !Starts(t, j, "}") {
      StepAligned(env, t, j, log);
      var one, s := Step(env, t, j, log), ParseStatement(t, j);
      if one.Stop? && one.ret && one.cut == 0 {
        BlockAligned(env, t, one.pos, one.log, cut, AndStmt(done, s.stmt));
      }
    }
  }

  lemma {:induction false} ForeachAligned(env: Env, t: Text, i: nat, log: Log)
    requires i <= |t|
    ensures Aligned(ParseForeach(t, i), StepForeach(env, t, i, log))
    decreases |t| - i, 1, 0
  {
    hide ParseVariable, ParseComma, Closed, ParseStatement, Run, StepEach;
    var v := ParseVariable(t, i);
    if v.Ok? && Closed(t, ParseComma(t, v.pos)).Ok? {
      var source := Closed(t, ParseComma(t, v.pos));
      var q, run, b := source.pos, Run(env, source.expr, log), ParseStatement(t, source.pos);
      if run.Done? && b.Statement? {
        var a, l := env.oracle(|run.log|), run.log + [Iterate(run.res.attr, run.res.attrn)];
        EachAligned(env, t, v.expr, q, b, a.items, l);
      }
    }
  }

  lemma {:induction false} EachAligned(env: Env, t: Text, v: Expr, body: nat, b: StatementParse, items: seq<Attr>,
                                       log: Log)
    requires body <= |t| && b == ParseStatement(t, body) && b.Statement?
    ensures var r := StepEach(env, t, v, body, b.pos, items, log); r.Stop? && r.cut == 0 ==> r.pos == b.pos
    decreases |t| - body, 2, |items|
  {
    hide Step, Run, ParseStatement;
    if items != [] && Run(env, v, log).Done? {
      var r := Run(env, v, log);
      var l := Assigned(env, OnRoot(env, r.res), Result(items[0], "", ""), r.log).1;
      StepAligned(env, t, body, l);
      if Step(env, t, body, l).Stop? {
        EachAligned(env, t, v, body, b, items[1..], Step(env, t, body, l).log);
      }
    }
  }

  // --------------------------------------------------------------- theorems

  /**
   * An error-free run of a statement whose text closes the braces it opens ends where walking over it ends,
   * exactly if it left no executed block before its closing brace.  That no block was left is enough for every text.
   */
  lemma EndsWithWalk(env: Env, t: Text, i: nat, log: Log)
    requires i <= |t| && Step(env, t, i, log).Stop?
    ensures var r, s := Step(env, t, i, log), ParseStatement(t, i);
      && (r.cut == 0 ==> s.Statement? && r.pos == s.pos)
      && (s.Statement? && Even(t, i, s.pos) ==> (r.pos == s.pos <==> r.cut == 0))
  {
    hide Step, ParseStatement;
    StepAligned(env, t, i, log);
    StepOpens(env, t, i, log);
  }

  /** The places behind statements that a walk over a command comes by */
  predicate OnWay(t: Text, i: nat, e: nat)
    requires i <= |t|
    decreases |t| - i
  {
    e == i || (var s := ParseStatement(t, i); s.Statement? && if s.complete then OnWay(t, s.pos, e) else e == s.pos)
  }

  lemma {:induction false} CommandOpens(env: Env, t: Text, i: nat, log: Log, cut: nat)
    requires i <= |t|
    ensures var r := StepCommand(env, t, i, log, cut); Opens(t, i, r.pos, r.cut - cut)
    decreases |t| - i
  {
    hide Step;
    var one, r := Step(env, t, i, log), StepCommand(env, t, i, log, cut);
    if one.Stop? {
      StepOpens(env, t, i, log);
      if one.ret {
        CommandOpens(env, t, one.pos, one.log, cut + one.cut);
        OpensThen(t, i, one.pos, r.pos, one.cut, r.cut - cut - one.cut);
      }
    }
  }

  lemma {:induction false} CommandAligned(env: Env, t: Text, i: nat, log: Log, cut: nat)
    requires i <= |t| && StepCommand(env, t, i, log, cut).cut == cut
    ensures OnWay(t, i, StepCommand(env, t, i, log, cut).pos)
    decreases |t| - i
  {
    hide Step, ParseStatement;
    var one, s := Step(env, t, i, log), ParseStatement(t, i);
    StepAligned(env, t, i, log);
    if one.Stop? && one.ret {
      CommandAligned(env, t, one.pos, one.log, cut);
    } else if one.Stop? && s.complete {
      assert OnWay(t, one.pos, one.pos);
    }
  }

  /** A run of a command stops at a place that the walk comes by, exactly if it left no executed block early. */
  lemma CommandEndsOnWay(env: Env, t: Text, i: nat, log: Log)
    requires i <= |t| && forall e :: OnWay(t, i, e) ==> Even(t, i, e)
    ensures var r := StepCommand(env, t, i, log, 0); OnWay(t, i, r.pos) <==> r.cut == 0
  {
    hide StepCommand, OnWay;
    var r := StepCommand(env, t, i, log, 0);
    CommandOpens(env, t, i, log, 0);
    if r.cut == 0 {
      CommandAligned(env, t, i, log, 0);
    }
  }

  lemma {:induction false} WalkEndsBlank(t: Text, i: nat, e: nat, log: Log)
    requires i <= |t| && e <= |t| && OnWay(t, i, e) && SkipSpaces(t, e) == |t|
    ensures WalkCommand(t, i, log).pos == e
    decreases |t| - i
  {
    hide ParseStatement;
    if e == i {
      BlankIsNoStatement(t, i);
    } else if ParseStatement(t, i).complete {
      WalkEndsBlank(t, ParseStatement(t, i).pos, e, log);
    }
  }

  /** A run that gets through a text with even braces left no block early, and a walk gets through as well. */
  lemma ThroughAgrees(env: Env, t: Text, log: Log)
    requires Even(t, 0, |t|)
    ensures var r := StepCommand(env, t, 0, log, 0);
      SkipSpaces(t, r.pos) == |t| ==> r.cut == 0 && WalkCommand(t, 0, log).pos == r.pos
  {
    hide StepCommand, WalkCommand;
    var r := StepCommand(env, t, 0, log, 0);
    if SkipSpaces(t, r.pos) == |t| {
      CommandOpens(env, t, 0, log, 0);
      SpacesPass(t, r.pos);
      BracesAdd(t, 0, r.pos, |t|);
      CommandAligned(env, t, 0, log, 0);
      WalkEndsBlank(t, 0, r.pos, log);
    }
  }
}
