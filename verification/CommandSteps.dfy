/**
 * What executing statements does to the place in the text (navit/command.c): each statement is executed
 * where it stands, and what is not executed is walked over.
 */
module CommandSteps {
  import opened CommandTree
  import opened CommandGrammar
  import opened CommandMeaning

  /**
   * A statement that was executed: what it returns, where it stopped, and the log then.  `cut` counts the
   * executed blocks that were left before their closing brace, but for those in the rounds of a foreach
   * that went on, because a foreach returns to where it was.
   */
  datatype Stop = Stop(ret: bool, pos: nat, log: Log, cut: nat) | Broken

  /** command_evaluate_single, not skipping */
  function Step(env: Env, t: Text, i: nat, log: Log): (r: Stop)
    requires i <= |t|
    ensures r.Stop? ==> i < r.pos <= |t|
    decreases |t| - i, 1, 0
  {
    var j := SkipSpaces(t, i);
    match FirstOp(t, j, ["foreach", "if", "{"])
    case "foreach" => StepForeach(env, t, j + 7, log)
    case "if" => StepIf(env, t, j + 2, log)
    case "{" => StepBlock(env, t, j + 1, log, 0)
    case _ =>
      match ParseComma(t, j)
      case Bad => Broken
      case Ok(e, p) =>
        match Run(env, e, log)
        case Fail => Broken
        case Done(r, l) =>
          var k := SkipSpaces(t, p);
          var ret := Starts(t, k, ";");
          Stop(ret, if ret then k + 1 else k, Fetched(env, r, l).1, 0)
  }

  /** What walking over a statement comes to */
  function Walked(s: StatementParse, log: Log): Stop {
    match s
    case BadStatement => Broken
    case Statement(_, p, complete) => Stop(complete, p, log, 0)
  }

  function StepOrWalk(env: Env, t: Text, i: nat, log: Log, step: bool): (r: Stop)
    requires i <= |t|
    ensures r.Stop? ==> i < r.pos <= |t|
    decreases |t| - i, 2, 0
  {
    if step then Step(env, t, i, log) else Walked(ParseStatement(t, i), log)
  }

  function StepIf(env: Env, t: Text, i: nat, log: Log): (r: Stop)
    requires i <= |t|
    ensures r.Stop? ==> i < r.pos <= |t|
    decreases |t| - i, 1, 0
  {
    match ParseCondition(t, i)
    case Bad => Broken
    case Ok(c, p) =>
      match Decided(env, c, log)
      case NoNumber => Broken
      case Number(v, _, l) => StepThen(env, t, p, v != 0, l)
  }

  /** The branches of an `if`, whatever they return; an `else` is looked for where the first one stopped. */
  function StepThen(env: Env, t: Text, i: nat, yes: bool, log: Log): (r: Stop)
    requires i <= |t|
    ensures r.Stop? ==> i < r.pos <= |t| && r.ret
    decreases |t| - i, 3, 0
  {
    match StepOrWalk(env, t, i, log, yes)
    case Broken => Broken
    case Stop(_, q, l, cut) => StepElse(env, t, q, yes, l, cut)
  }

  function StepElse(env: Env, t: Text, i: nat, yes: bool, log: Log, cut: nat): (r: Stop)
    requires i <= |t|
    ensures r.Stop? ==> i <= r.pos <= |t| && r.ret && cut <= r.cut
    decreases |t| - i, 3, 0
  {
    var k := SkipSpaces(t, i);
    if !Starts(t, k, "else") then Stop(true, k, log, cut)
    else
      match StepOrWalk(env, t, k + 4, log, !yes)
      case Broken => Broken
      case Stop(_, p, l, more) => Stop(true, p, l, cut + more)
  }

  /** The rest of a block; it is left at the first statement that returns false. */
  function StepBlock(env: Env, t: Text, i: nat, log: Log, cut: nat): (r: Stop)
    requires i <= |t|
    ensures r.Stop? ==> i < r.pos <= |t| && cut <= r.cut && (!r.ret ==> cut < r.cut)
    decreases |t| - i, 2, 0
  {
    var j := SkipSpaces(t, i);
    if Starts(t, j, "}") then Stop(true, j + 1, log, cut)
    else
      match Step(env, t, j, log)
      case Broken => Broken
      case Stop(ret, p, l, more) =>
        if ret then StepBlock(env, t, p, l, cut + more) else Stop(false, p, l, cut + more + 1)
  }

  /** From behind the keyword; the body is walked over before it is known whether there is an object. */
  function StepForeach(env: Env, t: Text, i: nat, log: Log): (r: Stop)
    requires i <= |t|
    ensures r.Stop? ==> i < r.pos <= |t|
    decreases |t| - i, 1, 0
  {
    match ParseVariable(t, i)
    case Bad => Broken
    case Ok(variable, p) =>
      match Closed(t, ParseComma(t, p))
      case Bad => Broken
      case Ok(source, q) =>
        match Run(env, source, log)
        case Fail => Broken
        case Done(r, l) =>
          match ParseStatement(t, q)
          case BadStatement => Broken
          case Statement(_, e, false) => Stop(false, e, l, 0)
          case Statement(_, e, true) => StepRounds(env, t, variable, q, e, r, l)
  }

  /** A foreach without an object, or whose object has nothing to iterate over, gives up behind its body. */
  function StepRounds(env: Env, t: Text, variable: Expr, body: nat, end: nat, r: Result, log: Log): (s: Stop)
    requires body < end <= |t|
    ensures s.Stop? ==> body < s.pos <= |t|
    decreases |t| - body, 3, 0
  {
    if !(r.attr.ObjectAttr? && r.attr.obj != 0) then Stop(false, end, log, 0)
    else
      var a, l := env.oracle(|log|), log + [Iterate(r.attr, r.attrn)];
      if !a.found then Stop(false, end, l, 0) else StepEach(env, t, variable, body, end, a.items, l)
  }

  /** The rounds; a foreach stops where a body that returns false has stopped. */
  function StepEach(env: Env, t: Text, variable: Expr, body: nat, end: nat, items: seq<Attr>, log: Log): (s: Stop)
    requires body < end <= |t|
    ensures s.Stop? ==> body < s.pos <= |t|
    decreases |t| - body, 2, |items|
  {
    if items == [] then Stop(true, end, log, 0)
    else
      match Run(env, variable, log)
      case Fail => Broken
      case Done(r, l) =>
        match Step(env, t, body, Assigned(env, OnRoot(env, r), Result(items[0], "", ""), l).1)
        case Broken => Broken
        case Stop(ret, p, l2, cut) =>
          if ret then StepEach(env, t, variable, body, end, items[1..], l2) else Stop(false, p, l2, cut)
  }

  /** Where a command stopped, and the log then: behind a statement that returned false, or before a broken one. */
  datatype Reach = Reach(pos: nat, log: Log, broken: bool, cut: nat)

  /** command_evaluate */
  function StepCommand(env: Env, t: Text, i: nat, log: Log, cut: nat): (r: Reach)
    requires i <= |t|
    ensures i <= r.pos <= |t| && cut <= r.cut
    decreases |t| - i
  {
    match Step(env, t, i, log)
    case Broken => Reach(i, log, true, cut)
    case Stop(ret, p, l, more) => if ret then StepCommand(env, t, p, l, cut + more) else Reach(p, l, false, cut + more)
  }

  /** The same, skipping */
  function WalkCommand(t: Text, i: nat, log: Log): (r: Reach)
    requires i <= |t|
    ensures i <= r.pos <= |t|
    decreases |t| - i
  {
    match ParseStatement(t, i)
    case BadStatement => Reach(i, log, true, 0)
    case Statement(_, p, complete) => if complete then WalkCommand(t, p, log) else Reach(p, log, false, 0)
  }
}
