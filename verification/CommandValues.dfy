/**
 * What expressions of navit/command.c come to, told apart from the evaluator: arithmetic on the trees of
 * numbers, and the order of what is done to objects.
 */
module CommandValues {
  import opened CommandTree
  import opened CommandGrammar
  import opened CommandMeaning
  import opened CommandRuns
  import opened CommandPrint
  import opened CommandRoundTrip
  import opened Command

  /** Trees of integers and of the operators that need nothing else */
  predicate Computes(e: Expr) {
    match e
    case Literal(attr) => attr.IntAttr?
    case Prefix(op, o) => (op == "!" || op == "~") && Computes(o)
    case Binary(op, l, r) => Known(op) && Computes(l) && Computes(r)
    case Choice(c, yes, no) => Computes(c) && Computes(yes) && Computes(no)
    case Comma(l, r) => Computes(l) && Computes(r)
    case _ => false
  }

  predicate Known(op: string) {
    || op == "*" || op == "/" || op == "+" || op == "&&" || op == "||"
    || op == "==" || op == "!=" || op == "<" || op == "<=" || op == ">" || op == ">="
  }

  function OneIf(b: bool): int { if b then 1 else 0 }

  /** The number that such a tree stands for; `/` multiplies, as the source has it. */
  function Value(e: Expr): int
    requires Computes(e)
  {
    match e
    case Literal(attr) => attr.num
    case Prefix(op, o) => if op == "!" then OneIf(Value(o) == 0) else -1 - Value(o)
    case Binary(op, l, r) => Computed(op, Value(l), Value(r))
    case Choice(c, yes, no) => if Value(c) == 0 then Value(no) else Value(yes)
    case Comma(_, r) => Value(r)
  }

  function Computed(op: string, x: int, y: int): int
    requires Known(op)
  {
    if op == "*" || op == "/" then x * y
    else if op == "+" then x + y
    else OneIf(
        if op == "&&" then x != 0 && y != 0
        else if op == "||" then x != 0 || y != 0
        else if op == "==" then x == y
        else if op == "!=" then x != y
        else if op == "<" then x < y
        else if op == "<=" then x < y || x == y
        else if op == ">" then y < x
        else y < x || x == y)
  }

  lemma BinaryComputes(env: Env, op: string, x: int, y: int, log: Log)
    requires Known(op)
    ensures BinaryValue(env, op, Result(IntAttr(x), "", ""), Result(IntAttr(y), "", ""), log) ==
      Done(Result(IntAttr(Computed(op, x, y)), "", ""), log)
  {
  }

  /** Running such a tree gives its number and asks nothing of any object. */
  lemma {:induction false} RunComputes(env: Env, e: Expr, log: Log)
    requires Computes(e)
    ensures Run(env, e, log) == Done(Result(IntAttr(Value(e)), "", ""), log)
    decreases e
  {
    hide BinaryValue, PrefixValue, Computed, Known, Called, Assigned, RunArgs;
    match e
    case Literal(_) =>
    case Prefix(op, o) =>
      RunComputes(env, o, log);
      PrefixComputes(env, op, Value(o), log);
    case Binary(op, l, r) =>
      RunComputes(env, l, log);
      RunComputes(env, r, log);
      BinaryComputes(env, op, Value(l), Value(r), log);
    case Choice(c, yes, no) =>
      RunComputes(env, c, log);
      RunComputes(env, yes, log);
      RunComputes(env, no, log);
    case Comma(l, r) =>
      RunComputes(env, l, log);
      RunComputes(env, r, log);
  }

  lemma PrefixComputes(env: Env, op: string, x: int, log: Log)
    requires op == "!" || op == "~"
    ensures PrefixValue(env, op, Result(IntAttr(x), "", ""), log) ==
      Done(Result(IntAttr(if op == "!" then OneIf(x == 0) else -1 - x), "", ""), log)
  {
  }

  lemma {:induction false} ComputesIsFine(e: Expr)
    requires Computes(e)
    ensures Fine(e)
    decreases e
  {
    match e
    case Literal(_) =>
    case Prefix(_, o) => ComputesIsFine(o);
    case Binary(_, l, r) =>
      ComputesIsFine(l);
      ComputesIsFine(r);
    case Choice(c, yes, no) =>
      ComputesIsFine(c);
      ComputesIsFine(yes);
      ComputesIsFine(no);
    case Comma(l, r) =>
      ComputesIsFine(l);
      ComputesIsFine(r);
  }

  /** The evaluator on the text of such a tree gives its number. */
  method EvaluateText(e: Expr, env: Env) returns (res: Result, error: Error)
    requires Computes(e)
    ensures error == NoError && res == Result(IntAttr(Value(e)), "", "")
  {
    hide Run, Value, Computes, Fine, TextOf;
    ComputesIsFine(e);
    RoundTrip(e);
    RunComputes(env, e, []);
    var ctx := new Context(TextOf(e), env, false);
    res := ctx.EvalComma();
    error := ctx.error;
  }

  /** A condition of numbers selects the branch. */
  lemma ConditionSelects(env: Env, c: Expr, yes: Stmt, no: Stmt, log: Log)
    requires Computes(c)
    ensures Exec(env, If(c, yes), log) == if Value(c) == 0 then Ended(true, log) else Absorbed(Exec(env, yes, log))
    ensures Exec(env, IfElse(c, yes, no), log) ==
      Absorbed(if Value(c) == 0 then Exec(env, no, log) else Exec(env, yes, log))
  {
    hide Run, Exec, Value;
    RunComputes(env, c, log);
    IfExecutes(env, c, yes, log);
    IfElseExecutes(env, c, yes, no, log);
  }

  // ------------------------------------------------------------ other values

  /** Strings are joined and compared as wholes, and objects are the same if they are one. */
  lemma StringsAndObjects(env: Env, a: string, b: string, x: nat, y: nat, log: Log)
    ensures Run(env, Binary("+", Literal(TextAttr(a)), Literal(TextAttr(b))), log) ==
      Done(Result(TextAttr(a + b), "", ""), log)
    ensures Run(env, Binary("==", Literal(TextAttr(a)), Literal(TextAttr(b))), log) ==
      Done(Result(IntAttr(OneIf(a == b)), "", ""), log)
    ensures Run(env, Binary("!=", Literal(ObjectAttr(x)), Literal(ObjectAttr(y))), log) ==
      Done(Result(IntAttr(OneIf(x != y)), "", ""), log)
  {
  }

  /** As a condition, a value counts as it does for command_evaluate_to_boolean. */
  lemma TruthAgrees(env: Env, attr: Attr, log: Log)
    requires !attr.OtherAttr?
    ensures var d := Decided(env, Literal(attr), log); d.Number? && d.log == log && (d.value != 0 <==> Truthful(attr))
  {
  }

  /** What an object does not have reads as nothing, and what it has as what it has. */
  lemma AttributeReads(env: Env, o: nat, name: string, log: Log)
    requires name != ""
    ensures var a := env.oracle(|log|);
      var (r, l) := Fetched(env, Result(ObjectAttr(o), "", name), log);
      r.attr == (if a.found then a.value else NoAttr) && l == log + [GetAttr(ObjectAttr(o), name)]
  {
  }

  /** A call gives what the function gives, but one that adds or removes an attribute gives the object. */
  lemma CallGives(env: Env, f: string, attrs: seq<Attr>, log: Log)
    requires f != ""
    ensures var r, a := Run(env, Apply(Name(f), ListOf(attrs)), log), env.oracle(|log|);
      && r.Done? && r.log == log + [Call(env.root, f, attrs)]
      && r.res.attr ==
        (if f == "add_attr" || f == "remove_attr" then env.root else if a.found then a.value else NoAttr)
  {
    ArgumentsInOrder(env, attrs, log);
    ApplyRuns(env, Name(f), ListOf(attrs), log);
    assert Run(env, Name(f), log) == Done(Result(NoAttr, f, ""), log);
  }

  // ------------------------------------------------------------------- order

  /** Arguments that are literals */
  function ListOf(attrs: seq<Attr>): Exprs {
    if attrs == [] then NoExprs else AndExpr(ListOf(attrs[..|attrs| - 1]), Literal(attrs[|attrs| - 1]))
  }

  /** A call gets its arguments in the order in which they are written. */
  lemma {:induction false} ArgumentsInOrder(env: Env, attrs: seq<Attr>, log: Log)
    ensures RunArgs(env, ListOf(attrs), log) == Arguments(attrs, log)
  {
    if attrs != [] {
      ArgumentsInOrder(env, attrs[..|attrs| - 1], log);
      assert attrs == attrs[..|attrs| - 1] + [attrs[|attrs| - 1]];
    }
  }

  /** The names of an attribute of the root object set to values, one after the other */
  function Sets(env: Env, name: string, values: seq<Attr>): Log {
    seq(|values|, i requires 0 <= i < |values| => SetAttr(env.root, name, env.typed(name, values[i])))
  }

  /** A foreach sets its variable to the items in their order, once each. */
  lemma {:induction false} ForeachInOrder(env: Env, name: string, items: seq<Attr>, log: Log)
    requires name != ""
    ensures ExecEach(env, Name(name), Plain(Literal(IntAttr(0)), true), items, log) ==
      Ended(true, log + Sets(env, name, items))
    decreases |items|
  {
    if items == [] {
      assert log + Sets(env, name, items) == log;
    } else {
      var next := log + [SetAttr(env.root, name, env.typed(name, items[0]))];
      ForeachInOrder(env, name, items[1..], next);
      assert Sets(env, name, items) == [Sets(env, name, items)[0]] + Sets(env, name, items[1..]);
      assert next + Sets(env, name, items[1..]) == log + Sets(env, name, items);
    }
  }

  /** Assignments are made from left to right, each with the value as its attribute takes it. */
  lemma AssignmentsInOrder(env: Env, a: string, x: Attr, b: string, y: Attr, log: Log)
    requires a != "" && b != ""
    ensures var r := Run(env, Comma(Assign(Name(a), Literal(x)), Assign(Name(b), Literal(y))), log);
      && r.Done?
      && r.log == log + [SetAttr(env.root, a, env.typed(a, x)), SetAttr(env.root, b, env.typed(b, y))]
  {
    SetRuns(env, a, x, log);
    SetRuns(env, b, y, log + [SetAttr(env.root, a, env.typed(a, x))]);
  }

  lemma SetRuns(env: Env, name: string, x: Attr, log: Log)
    requires name != ""
    ensures var r := Run(env, Assign(Name(name), Literal(x)), log);
      r.Done? && r.log == log + [SetAttr(env.root, name, env.typed(name, x))]
  {
    assert Run(env, Name(name), log) == Done(Result(NoAttr, name, ""), log);
    assert Run(env, Literal(x), log) == Done(Result(x, "", ""), log);
  }
}
