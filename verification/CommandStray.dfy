/**
 * Being steady is as much as can be told without the objects (navit/command.c): when all that a statement asks
 * are names, objects that answer in the right way make any other statement leave a block early.
 */
module CommandStray {
  import opened CommandTree
  import opened CommandGrammar
  import opened CommandMeaning
  import opened CommandSteps
  import opened CommandBraces
  import opened CommandEnds
  import opened CommandRuns
  import opened CommandSteady

  const NOTHING := Answer(false, NoAttr, [])
  const AN_OBJECT := Answer(true, ObjectAttr(1), [])
  const ONE_ITEM := Answer(true, ObjectAttr(1), [NoAttr])

  /** A name, or a name on what a path leads to */
  predicate IsPath(e: Expr) {
    match e
    case Name(n) => n != ""
    case Member(o, m) => IsPath(o) && m.Name? && m.name != ""
    case _ => false
  }

  function Depth(e: Expr): nat {
    match e
    case Member(o, _) => Depth(o) + 1
    case _ => 0
  }

  /** All expressions of a statement are paths, and foreach runs what is not steady over an attribute of an object. */
  predicate OnPaths(s: Stmt)
    decreases s
  {
    match s
    case Plain(e, _) => IsPath(e)
    case If(c, yes) => IsPath(c) && OnPaths(yes)
    case IfElse(c, yes, no) => IsPath(c) && OnPaths(yes) && OnPaths(no)
    case Foreach(v, source, body, complete) =>
      IsPath(v) && IsPath(source) && OnPaths(body) && (Steady(body) || (complete && source.Member?))
    case Block(stmts) => AllOnPaths(stmts)
  }

  predicate AllOnPaths(stmts: Stmts)
    decreases stmts
  {
    match stmts
    case NoStmts => true
    case AndStmt(init, last) => AllOnPaths(init) && OnPaths(last)
  }

  // ---------------------------------------------------------------- answers

  type Answers = seq<Answer>

  ghost predicate Says(env: Env, n: nat, answers: Answers) {
    forall k :: 0 <= k < |answers| ==> env.oracle(n + k) == answers[k]
  }

  lemma SaysBoth(env: Env, n: nat, a: Answers, b: Answers)
    requires Says(env, n, a + b)
    ensures Says(env, n, a) && Says(env, n + |a|, b)
  {
    assert forall k :: 0 <= k < |a| ==> (a + b)[k] == a[k];
    forall k | 0 <= k < |b|
      ensures env.oracle(n + |a| + k) == b[k]
    {
      assert (a + b)[|a| + k] == b[k];
      assert env.oracle(n + (|a| + k)) == (a + b)[|a| + k];
    }
  }

  /** Objects all along a path */
  function Leading(e: Expr): (a: Answers)
    ensures |a| == Depth(e)
  {
    seq(Depth(e), i => AN_OBJECT)
  }

  function Fetching(e: Expr, value: Answer): Answers { Leading(e) + [value] }

  function Deciding(c: Expr, yes: bool): Answers { Fetching(c, Answer(true, Truth(yes), [])) }

  /** Answers that lead through a statement that leaves no block early */
  function Quiet(s: Stmt): Answers
    decreases s
  {
    match s
    case Plain(e, _) => Fetching(e, NOTHING)
    case If(c, _) => Deciding(c, false)
    case IfElse(c, _, no) => Deciding(c, false) + Quiet(no)
    case Foreach(_, source, _, complete) =>
      if complete && source.Member? then Fetching(source, NOTHING) else Leading(source)
    case Block(stmts) => AllQuiet(stmts)
  }

  function AllQuiet(stmts: Stmts): Answers
    decreases stmts
  {
    match stmts
    case NoStmts => []
    case AndStmt(init, last) => AllQuiet(init) + Quiet(last)
  }

  /** Answers that lead to a block that is left early */
  function Leaving(s: Stmt): Answers
    decreases s
  {
    match s
    case Plain(_, _) => []
    case If(c, yes) => Deciding(c, true) + Leaving(yes)
    case IfElse(c, yes, no) =>
      if Steady(yes) then Deciding(c, false) + Leaving(no) else Deciding(c, true) + Leaving(yes)
    case Foreach(v, source, body, _) => Fetching(source, ONE_ITEM) + (Fetching(v, NOTHING) + Leaving(body))
    case Block(stmts) => LeavingAmong(stmts)
  }

  function LeavingAmong(stmts: Stmts): Answers
    decreases stmts
  {
    match stmts
    case NoStmts => []
    case AndStmt(init, last) =>
      if !AllSteady(init) then LeavingAmong(init)
      else AllQuiet(init) + if Steady(last) then Quiet(last) else Leaving(last)
  }

  // ------------------------------------------------------------------- runs

  lemma {:induction false} PathRuns(env: Env, e: Expr, log: Log)
    requires IsPath(e) && Says(env, |log|, Leading(e))
    ensures var r := Run(env, e, log);
      && r.Done? && |r.log| == |log| + Depth(e) && OnRoot(env, r.res).attrn != ""
      && r.res.attr == (if e.Member? then ObjectAttr(1) else NoAttr)
  {
    match e
    case Name(_) =>
    case Member(o, m) =>
      assert Leading(e) == Leading(o) + [AN_OBJECT];
      SaysBoth(env, |log|, Leading(o), [AN_OBJECT]);
      PathRuns(env, o, log);
      var r := Run(env, o, log);
      assert env.oracle(|r.log| + 0) == [AN_OBJECT][0];
      assert Run(env, m, r.log) == Done(Result(NoAttr, m.name, ""), r.log);
  }

  lemma PathFetches(env: Env, e: Expr, value: Answer, log: Log)
    requires IsPath(e) && Says(env, |log|, Fetching(e, value))
    ensures var r := Run(env, e, log);
      && r.Done? && |r.log| == |log| + Depth(e) && env.oracle(|r.log|) == value
      && r.res.attr == (if e.Member? then ObjectAttr(1) else NoAttr)
      && |Fetched(env, r.res, r.log).1| == |log| + Depth(e) + 1
      && Fetched(env, r.res, r.log).0.attr == if value.found then value.value else NoAttr
  {
    hide Run, Leading;
    SaysBoth(env, |log|, Leading(e), [value]);
    PathRuns(env, e, log);
    assert env.oracle(|log| + |Leading(e)| + 0) == [value][0];
  }

  lemma PathDecides(env: Env, c: Expr, yes: bool, log: Log)
    requires IsPath(c) && Says(env, |log|, Deciding(c, yes))
    ensures var d := Decided(env, c, log); d.Number? && (d.value != 0 <==> yes) && |d.log| == |log| + |Deciding(c, yes)|
  {
    hide Run, Leading;
    PathFetches(env, c, Answer(true, Truth(yes), []), log);
  }

  lemma {:induction false} QuietRuns(env: Env, s: Stmt, log: Log)
    requires OnPaths(s) && Steady(s) && Says(env, |log|, Quiet(s))
    ensures var e := Exec(env, s, log); e.Ended? && (e.ret <==> !MayStop(s)) && |e.log| == |log| + |Quiet(s)|
    decreases s
  {
    hide Run, Decided, Fetched, Deciding, Fetching, Leading;
    match s
    case Plain(e, _) => PlainRuns(env, s, log);
    case If(c, yes) =>
      IfExecutes(env, c, yes, log);
      PathDecides(env, c, false, log);
    case IfElse(c, yes, no) =>
      IfElseExecutes(env, c, yes, no, log);
      SaysBoth(env, |log|, Deciding(c, false), Quiet(no));
      PathDecides(env, c, false, log);
      QuietRuns(env, no, Decided(env, c, log).log);
    case Foreach(_, _, _, _) => ForeachGivesUp(env, s, log);
    case Block(stmts) => AllQuietRuns(env, stmts, log);
  }

  lemma {:induction false} PlainRuns(env: Env, s: Stmt, log: Log)
    requires s.Plain? && OnPaths(s) && Says(env, |log|, Quiet(s))
    ensures var e := Exec(env, s, log); e.Ended? && e.ret == s.complete && |e.log| == |log| + |Quiet(s)|
  {
    hide Run, Fetched, Leading;
    PathFetches(env, s.expr, NOTHING, log);
  }

  lemma {:induction false} ForeachGivesUp(env: Env, s: Stmt, log: Log)
    requires s.Foreach? && OnPaths(s) && Says(env, |log|, Quiet(s))
    ensures var e := Exec(env, s, log); e.Ended? && !e.ret && |e.log| == |log| + |Quiet(s)|
  {
    hide Run, Leading, ExecEach;
    if s.complete && s.source.Member? {
      PathFetches(env, s.source, NOTHING, log);
    } else {
      PathRuns(env, s.source, log);
    }
  }

  lemma {:induction false} AllQuietRuns(env: Env, stmts: Stmts, log: Log)
    requires AllOnPaths(stmts) && AllSteady(stmts) && Says(env, |log|, AllQuiet(stmts))
    ensures var e := ExecAll(env, stmts, log); e.Ended? && |e.log| == |log| + |AllQuiet(stmts)|
    decreases stmts
  {
    hide Exec, Quiet, OnPaths, Steady;
    if stmts.AndStmt? {
      var init := stmts.init;
      SaysBoth(env, |log|, AllQuiet(init), Quiet(stmts.last));
      AllQuietRuns(env, init, log);
      QuietRuns(env, stmts.last, ExecAll(env, init, log).log);
    }
  }

  /** With such answers a block is left early. */
  lemma {:induction false} LeavingStrays(env: Env, s: Stmt, log: Log)
    requires OnPaths(s) && !Steady(s) && Says(env, |log|, Leaving(s))
    ensures Exec(env, s, log).Astray?
    decreases s
  {
    hide Run, Decided, Fetched, Deciding, Fetching, Leading;
    match s
    case If(c, yes) =>
      IfExecutes(env, c, yes, log);
      SaysBoth(env, |log|, Deciding(c, true), Leaving(yes));
      PathDecides(env, c, true, log);
      LeavingStrays(env, yes, Decided(env, c, log).log);
    case IfElse(c, yes, no) =>
      IfElseExecutes(env, c, yes, no, log);
      var branch := if Steady(yes) then no else yes;
      SaysBoth(env, |log|, Deciding(c, !Steady(yes)), Leaving(branch));
      PathDecides(env, c, !Steady(yes), log);
      LeavingStrays(env, branch, Decided(env, c, log).log);
    case Foreach(v, source, body, _) =>
      SaysBoth(env, |log|, Fetching(source, ONE_ITEM), Fetching(v, NOTHING) + Leaving(body));
      var l := RoundStarts(env, v, source, body, log);
      LeavingStrays(env, body, l);
    case Block(stmts) => LeavingAmongStrays(env, stmts, log);
  }

  /** The first round of a foreach over one item */
  lemma {:induction false} RoundStarts(env: Env, v: Expr, source: Expr, body: Stmt, log: Log) returns (l: Log)
    requires IsPath(v) && IsPath(source) && source.Member? && Says(env, |log|, Fetching(source, ONE_ITEM))
    requires Says(env, |log| + |Fetching(source, ONE_ITEM)|, Fetching(v, NOTHING) + Leaving(body))
    ensures Says(env, |l|, Leaving(body))
    ensures Exec(env, body, l).Astray? ==> Exec(env, Foreach(v, source, body, true), log).Astray?
  {
    hide Run, Fetched, Leading, Leaving;
    PathFetches(env, source, ONE_ITEM, log);
    var run := Run(env, source, log);
    var l1 := run.log + [Iterate(run.res.attr, run.res.attrn)];
    SaysBoth(env, |l1|, Fetching(v, NOTHING), Leaving(body));
    PathFetches(env, v, NOTHING, l1);
    var r := Run(env, v, l1);
    l := Assigned(env, OnRoot(env, r.res), Result(NoAttr, "", ""), r.log).1;
    assert ExecEach(env, v, body, [NoAttr], l1).Astray? <== Exec(env, body, l).Astray?;
  }

  lemma {:induction false} LeavingAmongStrays(env: Env, stmts: Stmts, log: Log)
    requires AllOnPaths(stmts) && !AllSteady(stmts) && Says(env, |log|, LeavingAmong(stmts))
    ensures ExecAll(env, stmts, log).Astray?
    decreases stmts
  {
    hide Exec, Quiet, Leaving, OnPaths, Steady;
    var init, last := stmts.init, stmts.last;
    if AllSteady(init) {
      SaysBoth(env, |log|, AllQuiet(init), if Steady(last) then Quiet(last) else Leaving(last));
      AllQuietRuns(env, init, log);
      var l := ExecAll(env, init, log).log;
      if Steady(last) {
        QuietRuns(env, last, l);
      } else {
        LeavingStrays(env, last, l);
      }
    } else {
      LeavingAmongStrays(env, init, log);
    }
  }

  /** Objects that give those answers first, and nothing then */
  function Giving(answers: Answers): Env {
    Env(ObjectAttr(1), (n: nat) => if n < |answers| then answers[n] else NOTHING, (_, value) => value)
  }

  /** When all that a statement asks are names: it never leaves a block early just if it is steady. */
  lemma SteadyExactly(s: Stmt)
    requires OnPaths(s)
    ensures Steady(s) <==> forall env: Env, log: Log :: !Exec(env, s, log).Astray?
  {
    if Steady(s) {
      forall env: Env, log: Log
        ensures !Exec(env, s, log).Astray?
      {
        SteadyStays(env, s, log);
      }
    } else {
      LeavingStrays(Giving(Leaving(s)), s, []);
    }
  }

  /** Every run of a statement in which no expression fails ends where walking over it ends. */
  ghost predicate AlwaysEndsWithWalk(t: Text, i: nat)
    requires i <= |t| && ParseStatement(t, i).Statement?
  {
    forall env: Env, log: Log :: !Exec(env, ParseStatement(t, i).stmt, log).Failed? ==>
      Step(env, t, i, log).Stop? && Step(env, t, i, log).pos == ParseStatement(t, i).pos
  }

  /**
   * For a text that closes its braces and asks only names, and whose foreach bodies are steady: the end does
   * not depend on the objects, just if the statement is steady.
   */
  lemma SteadyEndsExactly(t: Text, i: nat)
    requires i <= |t| && ParseStatement(t, i).Statement? && Even(t, i, ParseStatement(t, i).pos)
    requires OnPaths(ParseStatement(t, i).stmt) && SteadyRounds(ParseStatement(t, i).stmt)
    ensures AlwaysEndsWithWalk(t, i) <==> Steady(ParseStatement(t, i).stmt)
  {
    hide ParseStatement, Step, Exec, Steady, Leaving, OnPaths, SteadyRounds, Even;
    var s := ParseStatement(t, i);
    if Steady(s.stmt) {
      forall env: Env, log: Log | !Exec(env, s.stmt, log).Failed?
        ensures Step(env, t, i, log).Stop? && Step(env, t, i, log).pos == s.pos
      {
        SteadyEnds(env, t, i, log);
      }
    } else {
      var env := Giving(Leaving(s.stmt));
      LeavingStrays(env, s.stmt, []);
      TreeMeans(env, t, i, []);
      if Step(env, t, i, []).Stop? {
        EndsWithWalk(env, t, i, []);
      }
      assert !(Step(env, t, i, []).Stop? && Step(env, t, i, []).pos == s.pos);
    }
  }

  /** With other expressions there is more to it: a block that is never run is never left. */
  lemma NeverRun(env: Env, log: Log, body: Stmt)
    ensures var s := If(Literal(IntAttr(0)), body); !Exec(env, s, log).Astray? && (Steady(s) <==> Steady(body))
  {
    IfExecutes(env, Literal(IntAttr(0)), body, log);
  }
}
