/**
 * What commands mean, tree by tree (navit/command.c).  Object access goes to an oracle, so results hold
 * for every behaviour of the objects; each access is an event in a log.
 */
module CommandMeaning {
  import opened CommandTree
  import opened CommandGrammar

  /** An interim result: a value, a name to be resolved (`name`), or a name on an object (`attrn`). */
  datatype Result = Result(attr: Attr, name: string, attrn: string)

  const BLANK := Result(NoAttr, "", "")

  datatype Event =
    | GetAttr(object: Attr, name: string)
    | SetAttr(object: Attr, name: string, value: Attr)
    | Call(object: Attr, function_: string, args: seq<Attr>)
    | Compute(op: string, left: Attr, right: Attr)
    | Iterate(object: Attr, name: string)

  type Log = seq<Event>

  /** What the oracle says to an event: whether it found something, a value, and the objects to iterate over. */
  datatype Answer = Answer(found: bool, value: Attr, items: seq<Attr>)

  /**
   * The object that names belong to, the answers to the events by their number, and what a value is
   * under the type of the attribute of a name.
   */
  datatype Env = Env(root: Attr, oracle: nat -> Answer, typed: (string, Attr) -> Attr)

  datatype Outcome = Done(res: Result, log: Log) | Fail

  datatype Number = Number(value: int, res: Result, log: Log) | NoNumber

  datatype Arguments = Arguments(attrs: seq<Attr>, log: Log) | BadArguments

  // --------------------------------------------------------------- results

  /** resolve_object: a name that stands alone belongs to the root object */
  function OnRoot(env: Env, res: Result): Result {
    if res.attr.NoAttr? && res.name != "" then Result(env.root, "", res.name) else res
  }

  /** resolve: fetches the attribute that a name stands for */
  function Fetched(env: Env, res: Result, log: Log): (Result, Log) {
    var r := OnRoot(env, res);
    if r.attrn == "" then (r, log)
    else
      var a := env.oracle(|log|);
      (if a.found then Result(a.value, r.attrn, "") else BLANK, log + [GetAttr(r.attr, r.attrn)])
  }

  /** get_int_bool: objects and strings count only as truth values */
  function ToInt(env: Env, isBool: bool, res: Result, log: Log): Number {
    var (r, l) := Fetched(env, res, log);
    match r.attr
    case NoAttr => Number(0, r, l)
    case IntAttr(n) => Number(n, r, l)
    case DoubleAttr(n) => Number(n, r, l)
    case ObjectAttr(o) => if isBool then Number(if o != 0 then 1 else 0, r, l) else NoNumber
    case TextAttr(_) => if isBool then Number(1, r, l) else NoNumber
    case OtherAttr => NoNumber
  }

  function Truth(b: bool): Attr { IntAttr(if b then 1 else 0) }

  /** `!` and `~` */
  function PrefixValue(env: Env, op: string, res: Result, log: Log): Outcome {
    match ToInt(env, op == "!", res, log)
    case NoNumber => Fail
    case Number(v, r, l) => Done(Result(if op == "!" then Truth(v == 0) else IntAttr(-v - 1), r.name, r.attrn), l)
  }

  /** Whether two values are known to be equal or different without being numbers */
  datatype Sameness = Same | Different | Numeric

  function Compared(l: Attr, r: Attr): Sameness {
    if l.NoAttr? || r.NoAttr? then Different
    else if l.TextAttr? && r.TextAttr? then if l.text == r.text then Same else Different
    else if l.ObjectAttr? && r.ObjectAttr? then if l.obj == r.obj then Same else Different
    else Numeric
  }

  /** What an operator makes of two integers; as in the source, `/` multiplies. */
  function IntValue(op: string, l: int, r: int): (known: (bool, Attr)) {
    match op
    case "==" => (true, Truth(l == r))
    case "!=" => (true, Truth(l != r))
    case "<" => (true, Truth(l < r))
    case "<=" => (true, Truth(l <= r))
    case ">" => (true, Truth(l > r))
    case ">=" => (true, Truth(l >= r))
    case "*" => (true, IntAttr(l * r))
    case "/" => (true, IntAttr(l * r))
    case "+" => (true, IntAttr(l + r))
    case _ => (false, NoAttr)
  }

  function AsInt(a: Attr): Attr { IntAttr(if a.IntAttr? then a.num else 0) }

  function AsDouble(a: Attr): Attr { DoubleAttr(if a.DoubleAttr? then a.whole else 0) }

  /** `&&` and `||` convert the right operand only if the left one does not decide. */
  function LogicalValue(env: Env, op: string, left: Result, right: Result, log: Log): Outcome {
    match ToInt(env, false, left, log)
    case NoNumber => Fail
    case Number(l, r, log1) =>
      if (op == "&&") == (l == 0) then Done(Result(Truth(op == "||"), r.name, r.attrn), log1)
      else
        match ToInt(env, false, right, log1)
        case NoNumber => Fail
        case Number(m, _, log2) => Done(Result(Truth(m != 0), r.name, r.attrn), log2)
  }

  /** The other binary operators on integers */
  function NumericValue(env: Env, op: string, left: Result, right: Result, log: Log): Outcome {
    match ToInt(env, false, left, log)
    case NoNumber => Fail
    case Number(l, rl, log1) =>
      match ToInt(env, false, right, log1)
      case NoNumber => Fail
      case Number(m, rr, log2) =>
        if IntValue(op, l, m).0 then Done(Result(IntValue(op, l, m).1, rl.name, rl.attrn), log2)
        else Done(Result(AsInt(env.oracle(|log2|).value), rl.name, rl.attrn), log2 + [Compute(op, rl.attr, rr.attr)])
  }

  /** The binary operators on resolved operands; what is converted is resolved once more. */
  function OperatorValue(env: Env, op: string, left: Result, right: Result, log: Log): Outcome {
    if (op == "==" || op == "!=") && Compared(left.attr, right.attr) != Numeric then
      Done(Result(Truth((op == "==") == (Compared(left.attr, right.attr) == Same)), left.name, left.attrn), log)
    else if op == "+" && left.attr.TextAttr? && right.attr.TextAttr? then
      Done(Result(TextAttr(left.attr.text + right.attr.text), left.name, left.attrn), log)
    else if op == "-" then
      var (l, log1) := Fetched(env, left, log);
      var (r, log2) := Fetched(env, right, log1);
      Done(Result(AsDouble(env.oracle(|log2|).value), l.name, l.attrn), log2 + [Compute(op, l.attr, r.attr)])
    else if op == "&&" || op == "||" then LogicalValue(env, op, left, right, log)
    else NumericValue(env, op, left, right, log)
  }

  function BinaryValue(env: Env, op: string, left: Result, right: Result, log: Log): Outcome {
    var (l, log1) := Fetched(env, left, log);
    var (r, log2) := Fetched(env, right, log1);
    OperatorValue(env, op, l, r, log2)
  }

  /** command_set_attr: the new value, retyped as the attribute, becomes the result if the object takes it */
  function Assigned(env: Env, target: Result, value: Result, log: Log): (Result, Log) {
    var attr := env.typed(target.attrn, value.attr);
    (if env.oracle(|log|).found then Result(attr, value.name, value.attrn) else target,
     log + [SetAttr(target.attr, target.attrn, attr)])
  }

  /** A function call; adding and removing attributes leaves the object as the result. */
  function Called(env: Env, f: Result, args: seq<Attr>, log: Log): (Result, Log) {
    var a := env.oracle(|log|);
    var attr :=
      if f.attrn == "add_attr" || f.attrn == "remove_attr" then f.attr else if a.found then a.value else NoAttr;
    (Result(attr, "", ""), log + [Call(f.attr, f.attrn, args)])
  }

  // ----------------------------------------------------------- expressions

  /** Operands from the left to the right; of a choice, the condition and one branch. */
  function Run(env: Env, e: Expr, log: Log): Outcome
    decreases e
  {
    match e
    case Literal(attr) => Done(Result(attr, "", ""), log)
    case Name(n) => Done(Result(NoAttr, n, ""), log)
    case Member(o, m) =>
      (match Run(env, o, log)
       case Fail => Fail
       case Done(ro, l1) =>
         match Run(env, m, l1)
         case Fail => Fail
         case Done(rm, l2) =>
           var (f, l3) := Fetched(env, ro, l2);
           Done(Result(f.attr, f.name, rm.name), l3))
    case Indexed(o) =>
      (match Run(env, o, log)
       case Fail => Fail
       case Done(ro, l) => Done(OnRoot(env, ro), l))
    case Apply(f, args) =>
      (match Run(env, f, log)
       case Fail => Fail
       case Done(rf, l1) =>
         match RunArgs(env, args, l1)
         case BadArguments => Fail
         case Arguments(attrs, l2) => var (r, l3) := Called(env, OnRoot(env, rf), attrs, l2); Done(r, l3))
    case Prefix(op, o) =>
      (match Run(env, o, log)
       case Fail => Fail
       case Done(r, l) => PrefixValue(env, op, r, l))
    case Binary(op, left, right) =>
      (match Run(env, left, log)
       case Fail => Fail
       case Done(rl, l1) =>
         match Run(env, right, l1)
         case Fail => Fail
         case Done(rr, l2) => BinaryValue(env, op, rl, rr, l2))
    case Choice(c, yes, no) =>
      (match Run(env, c, log)
       case Fail => Fail
       case Done(rc, l1) =>
         match ToInt(env, true, rc, l1)
         case NoNumber => Fail
         case Number(v, _, l2) => if v != 0 then Run(env, yes, l2) else Run(env, no, l2))
    case Assign(target, value) =>
      (match Run(env, target, log)
       case Fail => Fail
       case Done(rt, l1) =>
         match Run(env, value, l1)
         case Fail => Fail
         case Done(rv, l2) =>
           var (v, l3) := Fetched(env, rv, l2);
           var (r, l4) := Assigned(env, OnRoot(env, rt), v, l3);
           Done(r, l4))
    case Comma(left, right) =>
      (match Run(env, left, log)
       case Fail => Fail
       case Done(_, l) => Run(env, right, l))
  }

  function RunArgs(env: Env, args: Exprs, log: Log): Arguments
    decreases args
  {
    match args
    case NoExprs => Arguments([], log)
    case AndExpr(init, last) =>
      match RunArgs(env, init, log)
      case BadArguments => BadArguments
      case Arguments(attrs, l1) =>
        match Run(env, last, l1)
        case Fail => BadArguments
        case Done(r, l2) => var (f, l3) := Fetched(env, r, l2); Arguments(attrs + [f.attr], l3)
  }

  /** The condition of an `if` */
  function Decided(env: Env, c: Expr, log: Log): Number {
    match Run(env, c, log)
    case Fail => NoNumber
    case Done(r, l) => ToInt(env, true, r, l)
  }

  // ------------------------------------------- one step of each definition

  lemma {:induction false} ChoiceRuns(env: Env, c: Expr, yes: Expr, no: Expr, log: Log)
    ensures var rc := Run(env, c, log);
      Run(env, Choice(c, yes, no), log) ==
        if rc.Fail? || ToInt(env, true, rc.res, rc.log).NoNumber? then Fail
        else
          var n := ToInt(env, true, rc.res, rc.log);
          if n.value != 0 then Run(env, yes, n.log) else Run(env, no, n.log)
  {
    hide BinaryValue, PrefixValue, ToInt, Fetched, OnRoot, Called, Assigned, RunArgs;
  }

  lemma {:induction false} PrefixRuns(env: Env, op: string, o: Expr, log: Log)
    ensures var r := Run(env, o, log);
      Run(env, Prefix(op, o), log) == if r.Fail? then Fail else PrefixValue(env, op, r.res, r.log)
  {
    hide BinaryValue, PrefixValue, ToInt, Fetched, OnRoot, Called, Assigned, RunArgs;
  }

  lemma {:induction false} BinaryRuns(env: Env, op: string, left: Expr, right: Expr, log: Log)
    ensures var l := Run(env, left, log);
      Run(env, Binary(op, left, right), log) ==
        if l.Fail? || Run(env, right, l.log).Fail? then Fail
        else var r := Run(env, right, l.log); BinaryValue(env, op, l.res, r.res, r.log)
  {
    hide BinaryValue, PrefixValue, ToInt, Fetched, OnRoot, Called, Assigned, RunArgs;
  }

  lemma {:induction false} IndexedRuns(env: Env, e: Expr, log: Log)
    ensures Run(env, Indexed(e), log) ==
      match Run(env, e, log) case Fail => Fail case Done(r, l) => Done(OnRoot(env, r), l)
  {
  }

  lemma {:induction false} CommaRuns(env: Env, e: Expr, next: Parse, log: Log)
    requires next.Ok?
    ensures Run(env, Comma(e, next.expr), log) ==
      match Run(env, e, log) case Fail => Fail case Done(_, l) => Run(env, next.expr, l)
  {
  }

  lemma {:induction false} NoArgumentsRun(env: Env, log: Log)
    ensures RunArgs(env, NoExprs, log) == Arguments([], log)
  {
  }

  lemma {:induction false} ApplyRuns(env: Env, f: Expr, args: Exprs, log: Log)
    requires Run(env, f, log).Done?
    ensures Run(env, Apply(f, args), log) == match RunArgs(env, args, Run(env, f, log).log)
      case BadArguments => Fail
      case Arguments(attrs, l) =>
        var c := Called(env, OnRoot(env, Run(env, f, log).res), attrs, l); Done(c.0, c.1)
  {
  }

  // --------------------------------------- what failed on the left stays failed

  lemma {:induction false} ArgumentsFail(env: Env, t: Text, i: nat, f: Expr, done: Exprs, log: Log)
    requires i <= |t| && RunArgs(env, done, log).BadArguments?
    ensures var s := ParseArguments(t, i, f, done); s.Ok? ==> RunArgs(env, s.expr.args, log).BadArguments?
    decreases |t| - i
  {
    hide ParseAssignment, SkipSpaces, Run;
    var a := ParseAssignment(t, i);
    if a.Ok? {
      var j := SkipSpaces(t, a.pos);
      if Starts(t, j, ",") {
        ArgumentsFail(env, t, j + 1, f, AndExpr(done, a.expr), log);
      }
    }
  }

  /** An argument that fails makes the list fail. */
  lemma {:induction false} ArgumentFails(env: Env, t: Text, i: nat, f: Expr, done: Exprs, log: Log)
    requires i <= |t| && ParseAssignment(t, i).Ok?
    requires RunArgs(env, AndExpr(done, ParseAssignment(t, i).expr), log).BadArguments?
    ensures var s := ParseArguments(t, i, f, done); s.Ok? ==> RunArgs(env, s.expr.args, log).BadArguments?
  {
    hide ParseAssignment, SkipSpaces, Run, RunArgs;
    var a := ParseAssignment(t, i);
    var j := SkipSpaces(t, a.pos);
    if Starts(t, j, ",") {
      ArgumentsFail(env, t, j + 1, f, AndExpr(done, a.expr), log);
    }
  }

  lemma {:induction false} OutsideFails(env: Env, e: Expr, m: Expr, args: Exprs, log: Log)
    requires Run(env, e, log).Fail?
    ensures Run(env, Member(e, m), log).Fail? && Run(env, Indexed(e), log).Fail? && Run(env, Apply(e, args), log).Fail?
  {
  }

  lemma {:induction false} SuffixesFail(env: Env, t: Text, i: nat, e: Expr, log: Log)
    requires i <= |t| && Run(env, e, log).Fail?
    ensures ParseSuffixes(t, i, e).Ok? ==> Run(env, ParseSuffixes(t, i, e).expr, log).Fail?
    decreases |t| - i
  {
    hide ParseBrace, ParseCall, SkipSpaces, Starts, Run, FirstOp;
    var j := SkipSpaces(t, i);
    var op := FirstOp(t, j, ["[", "(", "."]);
    if op != "" {
      OperatorFits(t, j, op);
    }
    if op == "." {
      var m := ParseBrace(t, j + 1);
      if m.Ok? {
        OutsideFails(env, e, m.expr, NoExprs, log);
        SuffixesFail(env, t, m.pos, Member(e, m.expr), log);
      }
    } else if op == "[" {
      var k := SkipSpaces(t, j + 1);
      if Starts(t, k, "]") {
        OperatorFits(t, k, "]");
        OutsideFails(env, e, e, NoExprs, log);
        SuffixesFail(env, t, k + 1, Indexed(e), log);
      }
    } else if op == "(" {
      var c := ParseCall(t, j + 1, e);
      if c.Ok? {
        OutsideFails(env, e, e, c.expr.args, log);
        SuffixesFail(env, t, c.pos, c.expr, log);
      }
    }
  }

  lemma {:induction false} TailFails(env: Env, level: nat, t: Text, i: nat, left: Expr, log: Log)
    requires i <= |t| && 1 <= level <= LAST_LEVEL && Run(env, left, log).Fail?
    ensures ParseTail(level, t, i, left).Ok? ==> Run(env, ParseTail(level, t, i, left).expr, log).Fail?
    decreases |t| - i
  {
    hide ParseLevel, SkipSpaces, Starts, Operators, Guard;
    var j := SkipSpaces(t, i);
    var op := FirstOp(t, j, Operators(level));
    if !(Guard(level) != "" && Starts(t, j, Guard(level))) && op != "" {
      OperatorFits(t, j, op);
      var r := ParseLevel(level - 1, t, j + |op|);
      if r.Ok? {
        TailFails(env, level, t, r.pos, Binary(op, left, r.expr), log);
      }
    }
  }

  lemma OperatorFits(t: Text, j: nat, op: string)
    requires Starts(t, j, op)
    ensures j + |op| <= |t|
  {
  }

  lemma {:induction false} CommaTailFails(env: Env, t: Text, i: nat, left: Expr, log: Log)
    requires i <= |t| && Run(env, left, log).Fail?
    ensures ParseCommaTail(t, i, left).Ok? ==> Run(env, ParseCommaTail(t, i, left).expr, log).Fail?
    decreases |t| - i
  {
    hide ParseAssignment, SkipSpaces;
    var j := SkipSpaces(t, i);
    if Starts(t, j, ",") {
      var r := ParseAssignment(t, j + 1);
      if r.Ok? {
        CommaTailFails(env, t, r.pos, Comma(left, r.expr), log);
      }
    }
  }

}
