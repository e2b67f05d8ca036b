/**
 * Statements that end at the same place whatever the objects do (navit/command.c).  Being steady can be told
 * from the text alone.
 */
module CommandSteady {
  import opened CommandTree
  import opened CommandGrammar
  import opened CommandMeaning
  import opened CommandSteps
  import opened CommandBraces
  import opened CommandEnds
  import opened CommandRuns

  /** A run of a steady statement does what the tree says, leaves no block early and ends behind the statement. */
  lemma SteadyEnds(env: Env, t: Text, i: nat, log: Log)
    requires i <= |t| && ParseStatement(t, i).Statement? && Steady(ParseStatement(t, i).stmt)
    ensures var s, r := ParseStatement(t, i), Step(env, t, i, log);
      r.Stop? ==> r.pos == s.pos && r.cut == 0 && (!MayStop(s.stmt) ==> r.ret)
    ensures var s := ParseStatement(t, i);
      var e, r := Exec(env, s.stmt, log), Step(env, t, i, log);
      !e.Astray? && (if e.Failed? then r.Broken? else r == Stop(e.ret, s.pos, e.log, 0))
  {
    hide Step, Exec, ParseStatement, Steady;
    TreeMeans(env, t, i, log);
    SteadyStays(env, ParseStatement(t, i).stmt, log);
  }

  /** Any two runs of a steady statement that get through it end at the same place. */
  lemma SameEnd(one: Env, other: Env, t: Text, i: nat, log: Log, otherLog: Log)
    requires i <= |t| && ParseStatement(t, i).Statement? && Steady(ParseStatement(t, i).stmt)
    ensures var r, q := Step(one, t, i, log), Step(other, t, i, otherLog); r.Stop? && q.Stop? ==> r.pos == q.pos
  {
    hide Step, ParseStatement, Steady;
    SteadyEnds(one, t, i, log);
    SteadyEnds(other, t, i, otherLog);
  }

  predicate Blank(t: Text, i: nat)
    requires i <= |t|
  {
    SkipSpaces(t, i) == |t|
  }

  /** The statements of a command are steady, and none but the last may return false. */
  predicate SteadyFrom(t: Text, i: nat)
    requires i <= |t|
    decreases |t| - i
  {
    match ParseStatement(t, i)
    case BadStatement => Blank(t, i)
    case Statement(s, p, complete) => Steady(s) && (complete ==> if MayStop(s) then Blank(t, p) else SteadyFrom(t, p))
  }

  lemma BlankBreaks(env: Env, t: Text, i: nat, log: Log)
    requires i <= |t| && Blank(t, i)
    ensures Step(env, t, i, log).Broken?
  {
    BlankIsNoStatement(t, i);
    StepAligned(env, t, i, log);
  }

  /** A run of a steady command leaves no block early, and unless an expression fails it stops where the walk stops. */
  lemma {:induction false} SteadyCommandEnds(env: Env, t: Text, i: nat, log: Log, cut: nat, walkLog: Log)
    requires i <= |t| && SteadyFrom(t, i)
    ensures var r := StepCommand(env, t, i, log, cut);
      r.cut == cut && (!r.broken || Blank(t, r.pos) ==> r.pos == WalkCommand(t, i, walkLog).pos)
    decreases |t| - i
  {
    hide Step, ParseStatement, Steady, SkipSpaces;
    var s, one := ParseStatement(t, i), Step(env, t, i, log);
    if Blank(t, i) {
      BlankBreaks(env, t, i, log);
      BlankIsNoStatement(t, i);
    } else {
      SteadyEnds(env, t, i, log);
      if one.Stop? && s.complete {
        if Blank(t, s.pos) {
          BlankBreaks(env, t, s.pos, one.log);
          BlankIsNoStatement(t, s.pos);
        } else {
          SteadyCommandEnds(env, t, s.pos, one.log, cut, walkLog);
        }
      } else if one.Stop? {
        StepAligned(env, t, i, log);
      }
    }
  }

  /** Any two runs of a steady command that get through it stop at the same place. */
  lemma SameCommandEnd(one: Env, other: Env, t: Text, log: Log, otherLog: Log)
    requires SteadyFrom(t, 0)
    ensures var r, q := StepCommand(one, t, 0, log, 0), StepCommand(other, t, 0, otherLog, 0);
      (!r.broken || Blank(t, r.pos)) && (!q.broken || Blank(t, q.pos)) ==> r.pos == q.pos
  {
    hide StepCommand, WalkCommand, Blank, SteadyFrom;
    SteadyCommandEnds(one, t, 0, log, 0, []);
    SteadyCommandEnds(other, t, 0, otherLog, 0, []);
  }
}
