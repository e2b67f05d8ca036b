/**
 * The grammar of the command evaluator of navit/command.c: for a text and a position, the tree of the
 * expression or statement there and where it ends.
 */
module CommandGrammar {
  import opened CommandTree

  predicate IsSpace(c: char) {
    c == ' ' || c == '\t' || c == '\n' || c == '\r' || c == '\U{000C}'
  }

  /** A command as a C string: its end is the only NUL. */
  type Text = t: seq<char> | '\0' !in t witness []

  function At(t: Text, i: nat): char {
    if i < |t| then t[i] else '\0'
  }

  predicate IsDigit(c: char) { '0' <= c <= '9' }

  predicate IsLetter(c: char) { 'a' <= c <= 'z' || 'A' <= c <= 'Z' || c == '_' }

  function SkipSpaces(t: Text, i: nat): (j: nat)
    requires i <= |t|
    ensures i <= j <= |t| && !IsSpace(At(t, j))
    ensures forall k :: i <= k < j ==> IsSpace(t[k])
    decreases |t| - i
  {
    if IsSpace(At(t, i)) then SkipSpaces(t, i + 1) else i
  }

  predicate Starts(t: Text, i: nat, op: string) {
    i + |op| <= |t| && t[i..i + |op|] == op
  }

  /** The first operator of the list that the text goes on with, or "". */
  function FirstOp(t: Text, i: nat, ops: seq<string>): (op: string)
    ensures op != "" ==> op in ops && Starts(t, i, op)
  {
    if ops == [] then ""
    else if Starts(t, i, ops[0]) then ops[0]
    else FirstOp(t, i, ops[1..])
  }

  /** A tree, and where its text ends */
  datatype Parse = Ok(expr: Expr, pos: nat) | Bad

  datatype Scan = Upto(pos: nat) | Nowhere

  // ---------------------------------------------------------------- values

  function WordEnd(t: Text, i: nat): (j: nat)
    requires i <= |t|
    ensures i <= j <= |t|
    decreases |t| - i
  {
    if IsLetter(At(t, i)) || IsDigit(At(t, i)) then WordEnd(t, i + 1) else i
  }

  /** A name; `new` and a type name count as one. */
  function NameEnd(t: Text, i: nat): (j: nat)
    requires i <= |t|
    ensures i <= j <= |t|
    ensures IsLetter(At(t, i)) ==> j > i
  {
    var j := WordEnd(t, i);
    if j - i == 3 && t[i..j] == "new" && At(t, j) == ' ' then WordEnd(t, j + 1) else j
  }

  predicate StartsNumber(t: Text, i: nat) {
    || IsDigit(At(t, i))
    || (At(t, i) == '.' && IsDigit(At(t, i + 1)))
    || (At(t, i) == '-' && IsDigit(At(t, i + 1)))
    || (At(t, i) == '-' && At(t, i + 1) == '.' && IsDigit(At(t, i + 2)))
  }

  /** Digits, signs and at most one dot in all. */
  function NumberEnd(t: Text, i: nat, dots: nat): (s: Scan)
    requires i <= |t|
    ensures s.Upto? ==> i <= s.pos <= |t|
    ensures s.Upto? && (IsDigit(At(t, i)) || At(t, i) == '.' || At(t, i) == '-') ==> s.pos > i
    decreases |t| - i
  {
    if At(t, i) == '.' then if dots > 0 then Nowhere else NumberEnd(t, i + 1, dots + 1)
    else if IsDigit(At(t, i)) || At(t, i) == '-' then NumberEnd(t, i + 1, dots)
    else Upto(i)
  }

  /** atoi: an optional sign and digits */
  function Whole(t: Text, i: nat): int
    requires i <= |t|
  {
    if At(t, i) == '-' then 0 - Digits(t, i + 1, 0) else Digits(t, i, 0)
  }

  function Digits(t: Text, i: nat, n: nat): nat
    decreases |t| - i
  {
    if IsDigit(At(t, i)) then Digits(t, i + 1, 10 * n + (At(t, i) as int - '0' as int)) else n
  }

  function DigitsEnd(t: Text, i: nat): (j: nat)
    requires i <= |t|
    ensures i <= j <= |t|
    decreases |t| - i
  {
    if IsDigit(At(t, i)) then DigitsEnd(t, i + 1) else i
  }

  /** The exponent behind a decimal number, 0 if there is none */
  function Exponent(t: Text, i: nat): int
    requires i <= |t|
  {
    if At(t, i) != 'e' && At(t, i) != 'E' then 0
    else if At(t, i + 1) == '-' then 0 - Digits(t, i + 2, 0)
    else if At(t, i + 1) == '+' then Digits(t, i + 2, 0)
    else Digits(t, i + 1, 0)
  }

  function Power(n: nat): (p: nat)
    ensures p > 0
  {
    if n == 0 then 1 else 10 * Power(n - 1)
  }

  /** The whole part of n times ten to the e */
  function Scaled(n: nat, e: int): int {
    if e >= 0 then n * Power(e) else n / Power(-e)
  }

  /**
   * The whole part of strtod: an optional sign, digits with a dot among them, and an exponent, which is read
   * although it is not part of the number for the evaluator.
   */
  function Decimal(t: Text, i: nat): int
    requires i <= |t|
  {
    var start := if At(t, i) == '-' then i + 1 else i;
    var dot := DigitsEnd(t, start);
    var value :=
      if At(t, dot) == '.' then
        var end := DigitsEnd(t, dot + 1);
        Scaled(Digits(t, dot + 1, Digits(t, start, 0)), Exponent(t, end) - (end - dot - 1))
      else Scaled(Digits(t, start, 0), Exponent(t, dot));
    if At(t, i) == '-' then 0 - value else value
  }

  function ParseNumber(t: Text, i: nat): (s: Parse)
    requires i <= |t|
    ensures s.Ok? ==> i <= s.pos <= |t|
    ensures s.Ok? && StartsNumber(t, i) ==> s.pos > i
  {
    match NumberEnd(t, i, 0)
    case Nowhere => Bad
    case Upto(p) => Ok(Literal(if '.' in t[i..p] then DoubleAttr(Decimal(t, i)) else IntAttr(Whole(t, i))), p)
  }

  /** From behind an opening quote to the closing one; a backslash takes a quote along. */
  function QuoteEnd(t: Text, i: nat): (s: Scan)
    requires i <= |t|
    ensures s.Upto? ==> i <= s.pos < |t| && t[s.pos] == '"'
    ensures s.Upto? && s.pos > i ==> t[s.pos - 1] != '\\'
    decreases |t| - i
  {
    if i == |t| then Nowhere
    else if t[i] == '"' then Upto(i)
    else if t[i] == '\\' && At(t, i + 1) == '"' then QuoteEnd(t, i + 2)
    else QuoteEnd(t, i + 1)
  }

  /** The same when the string is copied: here a backslash takes any character along. */
  function CopyEnd(t: Text, i: nat, q: nat): (j: nat)
    requires i <= q < |t| && t[q] == '"' && (i < q ==> t[q - 1] != '\\')
    ensures i <= j <= q && t[j] == '"'
    decreases |t| - i
  {
    if t[i] == '"' then i else if t[i] == '\\' then CopyEnd(t, i + 2, q) else CopyEnd(t, i + 1, q)
  }

  /** The copied string. */
  function Copied(t: Text, i: nat, q: nat): string
    requires i <= q < |t| && t[q] == '"' && (i < q ==> t[q - 1] != '\\')
    decreases |t| - i
  {
    if t[i] == '"' then ""
    else if t[i] == '\\' then [t[i + 1]] + Copied(t, i + 2, q)
    else [t[i]] + Copied(t, i + 1, q)
  }

  /** From an opening quote on; with escapes, the string ends where the copying ends. */
  function ParseQuoted(t: Text, i: nat): (s: Parse)
    requires i <= |t| && At(t, i) == '"'
    ensures s.Ok? ==> i < s.pos <= |t|
  {
    match QuoteEnd(t, i + 1)
    case Nowhere => Bad
    case Upto(q) =>
      if '\\' in t[i..q] then Ok(Literal(TextAttr(Copied(t, i + 1, q))), CopyEnd(t, i + 1, q) + 1)
      else Ok(Literal(TextAttr(t[i + 1..q])), q + 1)
  }

  /** eval_value, from the first character that is not a space */
  function ParseValue(t: Text, i: nat): (s: Parse)
    requires i <= |t|
    ensures s.Ok? ==> i < s.pos <= |t|
  {
    if IsLetter(At(t, i)) then Ok(Name(t[i..NameEnd(t, i)]), NameEnd(t, i))
    else if StartsNumber(t, i) then ParseNumber(t, i)
    else if At(t, i) == '"' then ParseQuoted(t, i)
    else Bad
  }

  // ------------------------------------------------------------ expressions

  /** The binary operators by level, from `*` up to `||`. */
  function Operators(level: nat): (ops: seq<string>)
    ensures forall i :: 0 <= i < |ops| ==> ops[i] != ""
  {
    match level
    case 1 => ["*", "/", "%"]
    case 2 => ["-", "+"]
    case 3 => ["==", "!=", "<=", ">=", "<", ">"]
    case 4 => ["&"]
    case 5 => ["^"]
    case 6 => ["|"]
    case 7 => ["&&"]
    case _ => ["||"]
  }

  /** The longer operator that a one-character operator must not be the start of. */
  function Guard(level: nat): string {
    if level == 4 then "&&" else if level == 6 then "||" else ""
  }

  const LAST_LEVEL := 8

  /** A parenthesised expression or a value. */
  function ParseBrace(t: Text, i: nat): (s: Parse)
    requires i <= |t|
    ensures s.Ok? ==> i < s.pos <= |t|
    decreases |t| - i, 1
  {
    var j := SkipSpaces(t, i);
    if Starts(t, j, "(") then Closed(t, ParseComma(t, j + 1)) else ParseValue(t, j)
  }

  /** A closing parenthesis has to follow. */
  function Closed(t: Text, inner: Parse): (s: Parse)
    requires inner.Ok? ==> inner.pos <= |t|
    ensures s.Ok? ==> inner.Ok? && s.expr == inner.expr && inner.pos < s.pos <= |t|
  {
    match inner
    case Bad => Bad
    case Ok(e, p) => var k := SkipSpaces(t, p); if Starts(t, k, ")") then Ok(e, k + 1) else Bad
  }

  /** What may follow a value: attributes, empty brackets and calls. */
  function ParseSuffixes(t: Text, i: nat, e: Expr): (s: Parse)
    requires i <= |t|
    ensures s.Ok? ==> i <= s.pos <= |t|
    decreases |t| - i, 0
  {
    var j := SkipSpaces(t, i);
    match FirstOp(t, j, ["[", "(", "."])
    case "." =>
      (match ParseBrace(t, j + 1)
       case Bad => Bad
       case Ok(m, p) => ParseSuffixes(t, p, Member(e, m)))
    case "[" =>
      var k := SkipSpaces(t, j + 1);
      if Starts(t, k, "]") then ParseSuffixes(t, k + 1, Indexed(e)) else Bad
    case "(" =>
      (match ParseCall(t, j + 1, e)
       case Bad => Bad
       case Ok(call, p) => ParseSuffixes(t, p, call))
    case _ => Ok(e, j)
  }

  /** The arguments of a call and the closing parenthesis; no spaces between empty parentheses. */
  function ParseCall(t: Text, i: nat, f: Expr): (s: Parse)
    requires i <= |t|
    ensures s.Ok? ==> i < s.pos <= |t| && s.expr.Apply? && s.expr.function_ == f
    decreases |t| - i, 16
  {
    Closed(t, if At(t, i) == ')' then Ok(Apply(f, NoExprs), i) else ParseArguments(t, i, f, NoExprs))
  }

  /** The list of arguments, as a call of f with those that were read before */
  function ParseArguments(t: Text, i: nat, f: Expr, done: Exprs): (s: Parse)
    requires i <= |t|
    ensures s.Ok? ==> i < s.pos <= |t| && s.expr.Apply? && s.expr.function_ == f
    decreases |t| - i, 15
  {
    match ParseAssignment(t, i)
    case Bad => Bad
    case Ok(e, p) =>
      var j := SkipSpaces(t, p);
      if Starts(t, j, ",") then ParseArguments(t, j + 1, f, AndExpr(done, e)) else Ok(Apply(f, AndExpr(done, e)), j)
  }

  function ParsePostfix(t: Text, i: nat): (s: Parse)
    requires i <= |t|
    ensures s.Ok? ==> i < s.pos <= |t|
    decreases |t| - i, 2
  {
    match ParseBrace(t, i)
    case Bad => Bad
    case Ok(e, p) => ParseSuffixes(t, p, e)
  }

  /** Level 0 is the unary operators, levels 1 to 8 the binary ones. */
  function ParseLevel(level: nat, t: Text, i: nat): (s: Parse)
    requires i <= |t| && level <= LAST_LEVEL
    ensures s.Ok? ==> i < s.pos <= |t|
    decreases |t| - i, 3 + level
  {
    if level == 0 then
      var j := SkipSpaces(t, i);
      var op := FirstOp(t, j, ["~", "!"]);
      if op == "" then ParsePostfix(t, j)
      else
        match ParseLevel(0, t, j + |op|)
        case Bad => Bad
        case Ok(e, p) => Ok(Prefix(op, e), p)
    else
      match ParseLevel(level - 1, t, i)
      case Bad => Bad
      case Ok(e, p) => ParseTail(level, t, p, e)
  }

  /** The further operands of a level, which group to the left */
  function ParseTail(level: nat, t: Text, i: nat, left: Expr): (s: Parse)
    requires i <= |t| && 1 <= level <= LAST_LEVEL
    ensures s.Ok? ==> i <= s.pos <= |t|
    decreases |t| - i, 0
  {
    var j := SkipSpaces(t, i);
    var op := FirstOp(t, j, Operators(level));
    if (Guard(level) != "" && Starts(t, j, Guard(level))) || op == "" then Ok(left, j)
    else
      match ParseLevel(level - 1, t, j + |op|)
      case Bad => Bad
      case Ok(e, p) => ParseTail(level, t, p, Binary(op, left, e))
  }

  function ParseConditional(t: Text, i: nat): (s: Parse)
    requires i <= |t|
    ensures s.Ok? ==> i < s.pos <= |t|
    decreases |t| - i, 12
  {
    match ParseLevel(LAST_LEVEL, t, i)
    case Bad => Bad
    case Ok(c, p) =>
      var j := SkipSpaces(t, p);
      if Starts(t, j, "?") then ParseBranches(t, j + 1, c) else Ok(c, j)
  }

  /** Behind the question mark */
  function ParseBranches(t: Text, i: nat, c: Expr): (s: Parse)
    requires i <= |t|
    ensures s.Ok? ==> i < s.pos <= |t| && s.expr.Choice?
    decreases |t| - i, 12
  {
    match ParseLevel(LAST_LEVEL, t, i)
    case Bad => Bad
    case Ok(yes, p) =>
      var j := SkipSpaces(t, p);
      if !Starts(t, j, ":") then Bad
      else
        match ParseLevel(LAST_LEVEL, t, j + 1)
        case Bad => Bad
        case Ok(no, q) => Ok(Choice(c, yes, no), q)
  }

  function ParseAssignment(t: Text, i: nat): (s: Parse)
    requires i <= |t|
    ensures s.Ok? ==> i < s.pos <= |t|
    decreases |t| - i, 13
  {
    match ParseConditional(t, i)
    case Bad => Bad
    case Ok(target, p) =>
      var j := SkipSpaces(t, p);
      if !Starts(t, j, "=") then Ok(target, j)
      else
        match ParseConditional(t, j + 1)
        case Bad => Bad
        case Ok(value, q) => Ok(Assign(target, value), q)
  }

  function ParseComma(t: Text, i: nat): (s: Parse)
    requires i <= |t|
    ensures s.Ok? ==> i < s.pos <= |t|
    decreases |t| - i, 14
  {
    match ParseAssignment(t, i)
    case Bad => Bad
    case Ok(e, p) => ParseCommaTail(t, p, e)
  }

  function ParseCommaTail(t: Text, i: nat, left: Expr): (s: Parse)
    requires i <= |t|
    ensures s.Ok? ==> i <= s.pos <= |t|
    decreases |t| - i, 0
  {
    var j := SkipSpaces(t, i);
    if !Starts(t, j, ",") then Ok(left, j)
    else
      match ParseAssignment(t, j + 1)
      case Bad => Bad
      case Ok(e, p) => ParseCommaTail(t, p, Comma(left, e))
  }

  // ------------------------------------------------------------- statements

  /** A statement, where it ends, and whether it ended as a statement has to */
  datatype StatementParse = Statement(stmt: Stmt, pos: nat, complete: bool) | BadStatement

  function ParseStatement(t: Text, i: nat): (s: StatementParse)
    requires i <= |t|
    ensures s.Statement? ==> i < s.pos <= |t|
    decreases |t| - i, 1
  {
    var j := SkipSpaces(t, i);
    match FirstOp(t, j, ["foreach", "if", "{"])
    case "foreach" => ParseForeach(t, j + 7)
    case "if" => ParseIf(t, j + 2)
    case "{" => ParseBlock(t, j + 1, NoStmts)
    case _ =>
      match ParseComma(t, j)
      case Bad => BadStatement
      case Ok(e, p) =>
        var k := SkipSpaces(t, p);
        if Starts(t, k, ";") then Statement(Plain(e, true), k + 1, true) else Statement(Plain(e, false), k, false)
  }

  /** The head of a foreach up to the semicolon */
  function ParseVariable(t: Text, i: nat): (s: Parse)
    requires i <= |t|
    ensures s.Ok? ==> i < s.pos <= |t|
  {
    var j := SkipSpaces(t, i);
    if !Starts(t, j, "(") then Bad
    else
      match ParseConditional(t, j + 1)
      case Bad => Bad
      case Ok(e, p) => var k := SkipSpaces(t, p); if Starts(t, k, ";") then Ok(e, k + 1) else Bad
  }

  /** `foreach (variable; object) statement`, from the parenthesis on */
  function ParseForeach(t: Text, i: nat): (s: StatementParse)
    requires i <= |t|
    ensures s.Statement? ==> i < s.pos <= |t| && s.stmt.Foreach?
    decreases |t| - i, 0
  {
    match ParseVariable(t, i)
    case Bad => BadStatement
    case Ok(variable, p) =>
      match Closed(t, ParseComma(t, p))
      case Bad => BadStatement
      case Ok(source, q) =>
        match ParseStatement(t, q)
        case BadStatement => BadStatement
        case Statement(body, e, complete) => Statement(Foreach(variable, source, body, complete), e, complete)
  }

  /** The condition of an `if` in its parentheses */
  function ParseCondition(t: Text, i: nat): (s: Parse)
    requires i <= |t|
    ensures s.Ok? ==> i < s.pos <= |t|
  {
    var j := SkipSpaces(t, i);
    if Starts(t, j, "(") then Closed(t, ParseComma(t, j + 1)) else Bad
  }

  /** `if (condition) statement else statement`, from the parenthesis on */
  function ParseIf(t: Text, i: nat): (s: StatementParse)
    requires i <= |t|
    ensures s.Statement? ==> i < s.pos <= |t|
    decreases |t| - i, 0
  {
    match ParseCondition(t, i)
    case Bad => BadStatement
    case Ok(c, p) => ParseThen(t, p, c)
  }

  /** The branches of an `if`; whether they are complete is not looked at */
  function ParseThen(t: Text, i: nat, c: Expr): (s: StatementParse)
    requires i <= |t|
    ensures s.Statement? ==> i < s.pos <= |t| && (s.stmt.If? || s.stmt.IfElse?)
    decreases |t| - i, 2
  {
    match ParseStatement(t, i)
    case BadStatement => BadStatement
    case Statement(yes, q, _) => ParseElse(t, q, c, yes)
  }

  function ParseElse(t: Text, i: nat, c: Expr, yes: Stmt): (s: StatementParse)
    requires i <= |t|
    ensures s.Statement? ==> i <= s.pos <= |t| && s.complete
    ensures s.Statement? ==>
      s.stmt == If(c, yes) || (s.stmt.IfElse? && s.stmt.condition == c && s.stmt.then_ == yes)
    decreases |t| - i, 2
  {
    var l := SkipSpaces(t, i);
    if !Starts(t, l, "else") then Statement(If(c, yes), l, true)
    else
      match ParseStatement(t, l + 4)
      case BadStatement => BadStatement
      case Statement(no, e, _) => Statement(IfElse(c, yes, no), e, true)
  }

  /** The further statements of a block and the closing brace */
  function ParseBlock(t: Text, i: nat, done: Stmts): (s: StatementParse)
    requires i <= |t|
    ensures s.Statement? ==> i < s.pos <= |t| && s.stmt.Block?
    decreases |t| - i, 2
  {
    var j := SkipSpaces(t, i);
    if Starts(t, j, "}") then Statement(Block(done), j + 1, true)
    else
      match ParseStatement(t, j)
      case BadStatement => BadStatement
      case Statement(stmt, p, false) => Statement(Block(AndStmt(done, stmt)), p, false)
      case Statement(stmt, p, true) => ParseBlock(t, p, AndStmt(done, stmt))
  }

  /** Behind the last of the complete statements that a text starts with */
  function CommandEnd(t: Text, i: nat): (end: nat)
    requires i <= |t|
    ensures i <= end <= |t|
    decreases |t| - i
  {
    match ParseStatement(t, i)
    case Statement(_, p, true) => CommandEnd(t, p)
    case _ => i
  }

  /** Nothing but spaces is no statement. */
  lemma BlankIsNoStatement(t: Text, i: nat)
    requires i <= |t| && SkipSpaces(t, i) == |t|
    ensures ParseStatement(t, i).BadStatement? && CommandEnd(t, i) == i
  {
  }

  lemma StartsAt(t: Text, i: nat, op: string)
    ensures Starts(t, i, op) <==> i + |op| <= |t| && forall k :: 0 <= k < |op| ==> t[i + k] == op[k]
  {
    if i + |op| <= |t| {
      var w := t[i..i + |op|];
      assert forall k :: 0 <= k < |op| ==> w[k] == t[i + k];
    }
  }

  /** Nothing in the list starts with that character. */
  lemma {:induction false} NoOperator(t: Text, i: nat, ops: seq<string>)
    requires forall k :: 0 <= k < |ops| ==> ops[k] != "" && ops[k][0] != At(t, i)
    ensures FirstOp(t, i, ops) == ""
  {
    if ops != [] {
      StartsAt(t, i, ops[0]);
      NoOperator(t, i, ops[1..]);
    }
  }
}
