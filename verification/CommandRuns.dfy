/**
 * What the tree of a statement means (navit/command.c), and that executing the statement where it stands
 * comes to the same, as long as no block is left before its end.
 */
module CommandRuns {
  import opened CommandTree
  import opened CommandGrammar
  import opened CommandMeaning
  import opened CommandSteps
  import opened CommandEnds

  /**
   * What a statement returns and the log then.  A foreach without an object gives up, that is, it returns
   * false; so does one whose body does; an `if` does not care; and a block is left, after which the tree says no more.
   */
  datatype Ending = Ended(ret: bool, log: Log) | Failed | Astray

  function Exec(env: Env, s: Stmt, log: Log): Ending
    decreases s, 0, 0
  {
    match s
    case Plain(e, complete) =>
      (match Run(env, e, log)
       case Fail => Failed
       case Done(r, l) => Ended(complete, Fetched(env, r, l).1))
    case If(c, yes) =>
      (match Decided(env, c, log)
       case NoNumber => Failed
       case Number(v, _, l) => if v != 0 then Absorbed(Exec(env, yes, l)) else Ended(true, l))
    case IfElse(c, yes, no) =>
      (match Decided(env, c, log)
       case NoNumber => Failed
       case Number(v, _, l) => Absorbed(if v != 0 then Exec(env, yes, l) else Exec(env, no, l)))
    case Foreach(variable, source, body, complete) =>
      (match Run(env, source, log)
       case Fail => Failed
       case Done(r, l) =>
         if !complete || !(r.attr.ObjectAttr? && r.attr.obj != 0) then Ended(false, l)
         else
           var a, l2 := env.oracle(|l|), l + [Iterate(r.attr, r.attrn)];
           if a.found then ExecEach(env, variable, body, a.items, l2) else Ended(false, l2))
    case Block(stmts) => ExecAll(env, stmts, log)
  }

  /** An `if` returns true whatever its branch returns. */
  function Absorbed(e: Ending): Ending {
    if e.Ended? then Ended(true, e.log) else e
  }

  /** The body of a foreach, for each item in turn */
  function ExecEach(env: Env, variable: Expr, body: Stmt, items: seq<Attr>, log: Log): Ending
    decreases body, 1, |items|
  {
    if items == [] then Ended(true, log)
    else
      match Run(env, variable, log)
      case Fail => Failed
      case Done(r, l) =>
        var e := Exec(env, body, Assigned(env, OnRoot(env, r), Result(items[0], "", ""), l).1);
        if e.Ended? && e.ret then ExecEach(env, variable, body, items[1..], e.log) else e
  }

  function ExecAll(env: Env, stmts: Stmts, log: Log): (e: Ending)
    ensures e.Ended? ==> e.ret
    decreases stmts
  {
    match stmts
    case NoStmts => Ended(true, log)
    case AndStmt(init, last) =>
      var e := ExecAll(env, init, log);
      if !e.Ended? then e
      else
        var f := Exec(env, last, e.log);
        if f.Ended? && !f.ret then Astray else f
  }

  // ------------------------------------------------------ steady statements

  /** A statement that may return false: one without its semicolon, and a foreach, which may find no object */
  predicate MayStop(s: Stmt) {
    s.Foreach? || (s.Plain? && !s.complete)
  }

  /** No block in the statement directly holds one that may return false. */
  predicate Steady(s: Stmt)
    decreases s
  {
    match s
    case Plain(_, _) => true
    case If(_, yes) => Steady(yes)
    case IfElse(_, yes, no) => Steady(yes) && Steady(no)
    case Foreach(_, _, body, _) => Steady(body)
    case Block(stmts) => AllSteady(stmts)
  }

  predicate AllSteady(stmts: Stmts)
    decreases stmts
  {
    match stmts
    case NoStmts => true
    case AndStmt(init, last) => AllSteady(init) && !MayStop(last) && Steady(last)
  }

  /** What is repeated by a foreach is steady. */
  predicate SteadyRounds(s: Stmt)
    decreases s
  {
    match s
    case Plain(_, _) => true
    case If(_, yes) => SteadyRounds(yes)
    case IfElse(_, yes, no) => SteadyRounds(yes) && SteadyRounds(no)
    case Foreach(_, _, body, _) => Steady(body)
    case Block(stmts) => AllSteadyRounds(stmts)
  }

  predicate AllSteadyRounds(stmts: Stmts)
    decreases stmts
  {
    match stmts
    case NoStmts => true
    case AndStmt(init, last) => AllSteadyRounds(init) && SteadyRounds(last)
  }

  /** Whatever the objects do, a steady statement leaves no block early. */
  lemma {:induction false} SteadyStays(env: Env, s: Stmt, log: Log)
    requires Steady(s)
    ensures var e := Exec(env, s, log); !e.Astray? && (e.Ended? && !MayStop(s) ==> e.ret)
    decreases s, 0, 0
  {
    hide Run, Decided, Fetched, Assigned;
    match s
    case Plain(_, _) =>
    case If(c, yes) =>
      IfExecutes(env, c, yes, log);
      if Decided(env, c, log).Number? {
        SteadyStays(env, yes, Decided(env, c, log).log);
      }
    case IfElse(c, yes, no) =>
      IfElseExecutes(env, c, yes, no, log);
      if Decided(env, c, log).Number? {
        SteadyStays(env, yes, Decided(env, c, log).log);
        SteadyStays(env, no, Decided(env, c, log).log);
      }
    case Foreach(v, source, body, complete) =>
      var run := Run(env, source, log);
      if run.Done? && complete && run.res.attr.ObjectAttr? && run.res.attr.obj != 0 {
        var a := env.oracle(|run.log|);
        SteadyEach(env, v, body, a.items, run.log + [Iterate(run.res.attr, run.res.attrn)]);
      }
    case Block(stmts) => SteadyAll(env, stmts, log);
  }

  lemma {:induction false} SteadyEach(env: Env, v: Expr, body: Stmt, items: seq<Attr>, log: Log)
    requires Steady(body)
    ensures !ExecEach(env, v, body, items, log).Astray?
    decreases body, 1, |items|
  {
    hide Run, Exec, Steady;
    if items != [] && Run(env, v, log).Done? {
      var r := Run(env, v, log);
      var l := Assigned(env, OnRoot(env, r.res), Result(items[0], "", ""), r.log).1;
      SteadyStays(env, body, l);
      if Exec(env, body, l).Ended? {
        SteadyEach(env, v, body, items[1..], Exec(env, body, l).log);
      }
    }
  }

  lemma {:induction false} SteadyAll(env: Env, stmts: Stmts, log: Log)
    requires AllSteady(stmts)
    ensures !ExecAll(env, stmts, log).Astray?
    decreases stmts, 0, 0
  {
    hide Exec, Steady;
    if stmts.AndStmt? {
      SteadyAll(env, stmts.init, log);
      if ExecAll(env, stmts.init, log).Ended? {
        SteadyStays(env, stmts.last, ExecAll(env, stmts.init, log).log);
      }
    }
  }

  // ---------------------------------------------------------- trees and text

  /**
   * Executing a statement where it stands comes to what its tree means.  A run that goes astray breaks or has
   * left a block, unless the rounds of a foreach hide it.
   */
  ghost predicate Means(e: Ending, r: Stop, pos: nat, firm: bool) {
    match e
    case Ended(ret, log) => r == Stop(ret, pos, log, 0)
    case Failed => r.Broken?
    case Astray => firm ==> r.Broken? || r.cut > 0
  }

  lemma {:induction false} TreeMeans(env: Env, t: Text, i: nat, log: Log)
    requires i <= |t| && ParseStatement(t, i).Statement?
    ensures var s := ParseStatement(t, i);
      Means(Exec(env, s.stmt, log), Step(env, t, i, log), s.pos, SteadyRounds(s.stmt))
    decreases |t| - i, 1
  {
    hide SkipSpaces, FirstOp, Starts, ParseComma, ParseForeach, ParseCondition, ParseThen, ParseBlock;
    hide StepForeach, StepIf, StepBlock, Run, Decided, ExecEach, ExecAll;
    var j := SkipSpaces(t, i);
    var op := FirstOp(t, j, ["foreach", "if", "{"]);
    if op != "" {
      OperatorFits(t, j, op);
    }
    if op == "foreach" {
      ForeachMeans(env, t, j + 7, log);
    } else if op == "if" {
      IfMeans(env, t, j + 2, log);
    } else if op == "{" {
      NothingDone(env, log);
      BlockMeans(env, t, j + 1, NoStmts, log, log);
    }
  }

  lemma {:induction false} IfMeans(env: Env, t: Text, i: nat, log: Log)
    requires i <= |t| && ParseIf(t, i).Statement?
    ensures var s := ParseIf(t, i); Means(Exec(env, s.stmt, log), StepIf(env, t, i, log), s.pos, SteadyRounds(s.stmt))
    decreases |t| - i, 0
  {
    hide SkipSpaces, Starts, ParseCondition, ParseStatement, Step, Decided, Exec;
    var c := ParseCondition(t, i);
    var yes := ParseStatement(t, c.pos);
    var d, l := Decided(env, c.expr, log), SkipSpaces(t, yes.pos);
    assert ParseThen(t, c.pos, c.expr) == ParseElse(t, yes.pos, c.expr, yes.stmt);
    if Starts(t, l, "else") {
      OperatorFits(t, l, "else");
      var no := ParseStatement(t, l + 4);
      IfElseExecutes(env, c.expr, yes.stmt, no.stmt, log);
      assert ParseIf(t, i) == Statement(IfElse(c.expr, yes.stmt, no.stmt), no.pos, true);
      if d.Number? {
        TreeMeans(env, t, c.pos, d.log);
        TreeMeans(env, t, l + 4, d.log);
        var e, r := Exec(env, yes.stmt, d.log), Step(env, t, c.pos, d.log);
        if d.value == 0 {
          var n := Step(env, t, l + 4, d.log);
          assert StepThen(env, t, c.pos, false, d.log) == StepElse(env, t, yes.pos, false, d.log, 0);
          assert n.Stop? ==> StepElse(env, t, yes.pos, false, d.log, 0) == Stop(true, n.pos, n.log, n.cut);
          assert n.Broken? ==> StepElse(env, t, yes.pos, false, d.log, 0).Broken?;
        } else if e.Ended? {
          assert StepThen(env, t, c.pos, true, d.log) == StepElse(env, t, yes.pos, true, e.log, 0);
          assert StepElse(env, t, yes.pos, true, e.log, 0) == Stop(true, no.pos, e.log, 0);
        } else {
          assert r.Broken? ==> StepThen(env, t, c.pos, true, d.log).Broken?;
          assert r.Stop? ==> StepThen(env, t, c.pos, true, d.log) == StepElse(env, t, r.pos, true, r.log, r.cut);
        }
        assert StepIf(env, t, i, log) == StepThen(env, t, c.pos, d.value != 0, d.log);
      }
    } else {
      IfExecutes(env, c.expr, yes.stmt, log);
      assert ParseIf(t, i) == Statement(If(c.expr, yes.stmt), l, true);
      if d.Number? {
        TreeMeans(env, t, c.pos, d.log);
        assert StepIf(env, t, i, log) == StepThen(env, t, c.pos, d.value != 0, d.log);
      }
    }
  }

  lemma {:induction false} IfExecutes(env: Env, c: Expr, yes: Stmt, log: Log)
    ensures var d := Decided(env, c, log);
      Exec(env, If(c, yes), log) ==
        if d.NoNumber? then Failed else if d.value != 0 then Absorbed(Exec(env, yes, d.log)) else Ended(true, d.log)
  {
  }

  lemma {:induction false} IfElseExecutes(env: Env, c: Expr, yes: Stmt, no: Stmt, log: Log)
    ensures var d := Decided(env, c, log);
      Exec(env, IfElse(c, yes, no), log) ==
        if d.NoNumber? then Failed
        else Absorbed(if d.value != 0 then Exec(env, yes, d.log) else Exec(env, no, d.log))
  {
  }

  lemma {:induction false} ForeachMeans(env: Env, t: Text, i: nat, log: Log)
    requires i <= |t| && ParseForeach(t, i).Statement?
    ensures var s := ParseForeach(t, i);
      Means(Exec(env, s.stmt, log), StepForeach(env, t, i, log), s.pos, SteadyRounds(s.stmt))
    decreases |t| - i, 0
  {
    hide ParseVariable, ParseComma, Closed, ParseStatement, Run, StepEach, ExecEach;
    var v := ParseVariable(t, i);
    var source := Closed(t, ParseComma(t, v.pos));
    var q, run := source.pos, Run(env, source.expr, log);
    if run.Done? && run.res.attr.ObjectAttr? && run.res.attr.obj != 0 {
      var a, l := env.oracle(|run.log|), run.log + [Iterate(run.res.attr, run.res.attrn)];
      EachMeans(env, t, v.expr, q, a.items, l);
    }
  }

  lemma {:induction false} EachMeans(env: Env, t: Text, v: Expr, body: nat, items: seq<Attr>, log: Log)
    requires body <= |t| && ParseStatement(t, body).Statement?
    ensures var b := ParseStatement(t, body);
      Means(ExecEach(env, v, b.stmt, items, log), StepEach(env, t, v, body, b.pos, items, log), b.pos, Steady(b.stmt))
    decreases |t| - body, 2, |items|
  {
    hide ParseStatement, Run, Exec, Step, Steady;
    if Steady(ParseStatement(t, body).stmt) {
      SteadyEach(env, v, ParseStatement(t, body).stmt, items, log);
    }
    if items != [] && Run(env, v, log).Done? {
      var r := Run(env, v, log);
      var l := Assigned(env, OnRoot(env, r.res), Result(items[0], "", ""), r.log).1;
      TreeMeans(env, t, body, l);
      if Exec(env, ParseStatement(t, body).stmt, l).Ended? {
        EachMeans(env, t, v, body, items[1..], Exec(env, ParseStatement(t, body).stmt, l).log);
      }
    }
  }

  lemma {:induction false} BlockMeans(env: Env, t: Text, i: nat, done: Stmts, start: Log, log: Log)
    requires i <= |t| && ParseBlock(t, i, done).Statement? && ExecAll(env, done, start) == Ended(true, log)
    ensures var s := ParseBlock(t, i, done);
      Means(Exec(env, s.stmt, start), StepBlock(env, t, i, log, 0), s.pos, SteadyRounds(s.stmt))
    decreases |t| - i, 2
  {
    hide ParseStatement, SkipSpaces, Starts, Step, Exec, ExecAll, SteadyRounds, AllSteadyRounds;
    var j := SkipSpaces(t, i);
    ExecutesBlock(env, done, start);
    if !Starts(t, j, "}") {
      var one := ParseStatement(t, j);
      var more := AndStmt(done, one.stmt);
      TreeMeans(env, t, j, log);
      ExecutesMore(env, done, one.stmt, start);
      ExecutesBlock(env, more, start);
      HoldsMore(done, one.stmt);
      if one.complete {
        BlockHolds(t, one.pos, more);
      }
      var e := Exec(env, one.stmt, log);
      if e.Ended? && e.ret {
        StepAligned(env, t, j, log);
        BlockMeans(env, t, one.pos, more, start, e.log);
      } else if one.complete {
        BlockStays(env, t, one.pos, more, start);
      }
    }
  }

  /** A block holds the statements that were read before its rest. */
  lemma {:induction false} BlockHolds(t: Text, i: nat, done: Stmts)
    requires i <= |t| && ParseBlock(t, i, done).Statement?
    ensures SteadyRounds(ParseBlock(t, i, done).stmt) ==> AllSteadyRounds(done)
    ensures Steady(ParseBlock(t, i, done).stmt) ==> AllSteady(done)
    decreases |t| - i
  {
    hide ParseStatement, SkipSpaces, Starts, Steady, SteadyRounds, AllSteady, AllSteadyRounds;
    var j := SkipSpaces(t, i);
    if !Starts(t, j, "}") {
      var one := ParseStatement(t, j);
      HoldsMore(done, one.stmt);
      if one.complete {
        BlockHolds(t, one.pos, AndStmt(done, one.stmt));
      }
    } else {
      HoldsAll(done);
    }
  }

  lemma {:induction false} HoldsAll(stmts: Stmts)
    ensures Steady(Block(stmts)) == AllSteady(stmts) && SteadyRounds(Block(stmts)) == AllSteadyRounds(stmts)
  {
  }

  lemma {:induction false} HoldsMore(done: Stmts, one: Stmt)
    ensures AllSteady(AndStmt(done, one)) == (AllSteady(done) && !MayStop(one) && Steady(one))
    ensures AllSteadyRounds(AndStmt(done, one)) == (AllSteadyRounds(done) && SteadyRounds(one))
    ensures Steady(Block(AndStmt(done, one))) == AllSteady(AndStmt(done, one))
    ensures SteadyRounds(Block(AndStmt(done, one))) == AllSteadyRounds(AndStmt(done, one))
  {
  }

  lemma {:induction false} NothingDone(env: Env, log: Log)
    ensures ExecAll(env, NoStmts, log) == Ended(true, log)
  {
  }

  lemma {:induction false} ExecutesBlock(env: Env, done: Stmts, log: Log)
    ensures Exec(env, Block(done), log) == ExecAll(env, done, log)
  {
  }

  lemma {:induction false} ExecutesMore(env: Env, done: Stmts, one: Stmt, log: Log)
    ensures var e := ExecAll(env, done, log);
      ExecAll(env, AndStmt(done, one), log) ==
        if !e.Ended? then e
        else var f := Exec(env, one, e.log); if f.Ended? && !f.ret then Astray else f
  {
  }

  /** What fails or goes astray in a block stays so. */
  lemma {:induction false} BlockStays(env: Env, t: Text, i: nat, done: Stmts, start: Log)
    requires i <= |t| && ParseBlock(t, i, done).Statement? && !ExecAll(env, done, start).Ended?
    ensures Exec(env, ParseBlock(t, i, done).stmt, start) == ExecAll(env, done, start)
    decreases |t| - i
  {
    hide ParseStatement, SkipSpaces, Starts, Exec, ExecAll;
    ExecutesBlock(env, done, start);
    var j := SkipSpaces(t, i);
    if !Starts(t, j, "}") {
      var one := ParseStatement(t, j);
      var more := AndStmt(done, one.stmt);
      ExecutesMore(env, done, one.stmt, start);
      ExecutesBlock(env, more, start);
      if one.complete {
        BlockStays(env, t, one.pos, more, start);
      }
    }
  }
}
