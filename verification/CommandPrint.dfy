/**
 * How tightly the operators of navit/command.c bind.  Trees are printed with parentheses only where the
 * strengths of operators ask for them, and reading the text gives the tree back.
 */
module CommandPrint {
  import opened CommandTree
  import opened CommandGrammar

  // -------------------------------------------------------------- strengths

  /** The tighter, the larger; 3 is `?:`, 2 assignment, 1 the comma, and 0 what ends an expression. */
  function Strength(op: string): nat {
    if op == "*" || op == "/" || op == "%" then 11
    else if op == "+" || op == "-" then 10
    else if op == "==" || op == "!=" || op == "<" || op == "<=" || op == ">" || op == ">=" then 9
    else if op == "&" then 8
    else if op == "^" then 7
    else if op == "|" then 6
    else if op == "&&" then 5
    else if op == "||" then 4
    else if op == "?" then 3
    else if op == "=" then 2
    else if op == "," then 1
    else 0
  }

  /** Products bind tighter than sums, and those tighter than comparisons. */
  lemma ArithmeticInOrder()
    ensures Strength("*") == Strength("/") == Strength("%") > Strength("+") == Strength("-")
    ensures Strength("-") > Strength("<") == Strength("<=") == Strength(">") == Strength(">=")
    ensures Strength(">=") == Strength("==") == Strength("!=")
  {
  }

  /** The other operators follow one by one, down to the comma. */
  lemma LogicInOrder()
    ensures Strength("==") > Strength("&") > Strength("^") > Strength("|") > Strength("&&") > Strength("||")
    ensures Strength("||") > Strength("?") > Strength("=") > Strength(",")
  {
  }

  predicate IsBinary(op: string) { 4 <= Strength(op) <= 11 }

  /** What a tree is tied together by; 12 is a prefix, 13 a suffix and 14 a value that needs nothing. */
  function Own(e: Expr): (k: nat)
    ensures k <= 14
  {
    match e
    case Literal(_) => 14
    case Name(_) => 14
    case Member(_, _) => 13
    case Indexed(_) => 13
    case Apply(_, _) => 13
    case Prefix(_, _) => 12
    case Binary(op, _, _) => Strength(op)
    case Choice(_, _, _) => 3
    case Assign(_, _) => 2
    case Comma(_, _) => 1
  }

  // --------------------------------------------------------------- printing

  function DigitsOf(n: nat): (s: string)
    ensures s != "" && forall i :: 0 <= i < |s| ==> IsDigit(s[i])
  {
    var d := [('0' as int + n % 10) as char];
    if n < 10 then d else DigitsOf(n / 10) + d
  }

  function NumberText(n: int): (s: string)
    ensures s != "" && (IsDigit(s[0]) || (s[0] == '-' && |s| > 1 && IsDigit(s[1])))
  {
    if n < 0 then "-" + DigitsOf(-n) else DigitsOf(n)
  }

  predicate PlainText(s: string) { '"' !in s && '\\' !in s && '\0' !in s }

  predicate IsWord(n: string) {
    n != "" && IsLetter(n[0]) && n != "new" && forall i :: 0 <= i < |n| ==> IsLetter(n[i]) || IsDigit(n[i])
  }

  /** The trees that have a text: with numbers and strings that can be written, names and the known operators */
  predicate Fine(e: Expr) {
    match e
    case Literal(attr) => attr.IntAttr? || attr.DoubleAttr? || (attr.TextAttr? && PlainText(attr.text))
    case Name(n) => IsWord(n)
    case Member(o, m) => Fine(o) && Fine(m)
    case Indexed(o) => Fine(o)
    case Apply(f, args) => Fine(f) && AllFine(args)
    case Prefix(op, o) => (op == "!" || op == "~") && Fine(o)
    case Binary(op, l, r) => IsBinary(op) && Fine(l) && Fine(r)
    case Choice(c, yes, no) => Fine(c) && Fine(yes) && Fine(no)
    case Assign(target, value) => Fine(target) && Fine(value)
    case Comma(l, r) => Fine(l) && Fine(r)
  }

  predicate AllFine(args: Exprs) {
    match args
    case NoExprs => true
    case AndExpr(init, last) => AllFine(init) && Fine(last)
  }

  function LiteralText(attr: Attr): string {
    match attr
    case IntAttr(n) => NumberText(n)
    case DoubleAttr(n) => NumberText(n) + "."
    case TextAttr(s) => "\"" + s + "\""
    case _ => ""
  }

  function Infix(a: string, op: string, b: string): string { a + " " + op + " " + b }

  /** A tree where something of strength k is called for */
  function Print(e: Expr, k: nat): string
    decreases e, 1
  {
    if Own(e) < k then "(" + Body(e) + ")" else Body(e)
  }

  /** Operators of one strength group to the left. */
  function Body(e: Expr): string
    decreases e, 0
  {
    match e
    case Literal(attr) => LiteralText(attr)
    case Name(n) => n
    case Member(o, m) => Infix(Print(o, 13), ".", Print(m, 14))
    case Indexed(o) => Print(o, 13) + " []"
    case Apply(f, args) => Print(f, 13) + " (" + PrintAll(args) + ")"
    case Prefix(op, o) => op + Print(o, 12)
    case Binary(op, l, r) => Infix(Print(l, Strength(op)), op, Print(r, Strength(op) + 1))
    case Choice(c, yes, no) => Infix(Print(c, 4), "?", Infix(Print(yes, 4), ":", Print(no, 4)))
    case Assign(target, value) => Infix(Print(target, 3), "=", Print(value, 3))
    case Comma(l, r) => Infix(Print(l, 1), ",", Print(r, 2))
  }

  function PrintAll(args: Exprs): string
    decreases args, 0
  {
    match args
    case NoExprs => ""
    case AndExpr(init, last) => if init.NoExprs? then Print(last, 2) else Infix(PrintAll(init), ",", Print(last, 2))
  }

  // ---------------------------------------------------------------- reading

  /** The evaluator for what binds at least with strength k */
  function Read(k: nat, t: Text, i: nat): Parse
    requires 1 <= k <= 14 && i <= |t|
  {
    if k == 1 then ParseComma(t, i)
    else if k == 2 then ParseAssignment(t, i)
    else if k == 3 then ParseConditional(t, i)
    else if k <= 12 then ParseLevel(12 - k, t, i)
    else if k == 13 then ParsePostfix(t, i)
    else ParseBrace(t, i)
  }

  predicate Chains(k: nat) { k == 1 || 4 <= k <= 11 || k == 13 }

  /** Its loop, for the strengths that group to the left */
  function Tail(k: nat, t: Text, i: nat, e: Expr): Parse
    requires Chains(k) && i <= |t|
  {
    if k == 1 then ParseCommaTail(t, i, e)
    else if k == 13 then ParseSuffixes(t, i, e)
    else ParseTail(12 - k, t, i, e)
  }

  /** Nothing of strength m goes on at j. */
  predicate Stops(t: Text, j: nat, m: nat) {
    if m == 1 then !Starts(t, j, ",")
    else if m == 2 then !Starts(t, j, "=")
    else if m == 3 then !Starts(t, j, "?")
    else if 4 <= m <= 11 then
      (Guard(12 - m) != "" && Starts(t, j, Guard(12 - m))) || FirstOp(t, j, Operators(12 - m)) == ""
    else if m == 13 then FirstOp(t, j, ["[", "(", "."]) == ""
    else true
  }

  /** Behind p, a value is over, and nothing of strength k or more goes on. */
  predicate Follows(t: Text, p: nat, k: nat)
    requires p <= |t|
  {
    && (At(t, p) == ' ' || At(t, p) == ')' || At(t, p) == '\0')
    && forall m :: k <= m <= 14 ==> Stops(t, SkipSpaces(t, p), m)
  }

  lemma StartsBoth(t: Text, i: nat, a: string, b: string)
    ensures Starts(t, i, a + b) <==> Starts(t, i, a) && Starts(t, i + |a|, b)
  {
    if i + |a + b| <= |t| {
      var w := t[i..i + |a + b|];
      assert w[..|a|] == t[i..i + |a|] && w[|a|..] == t[i + |a|..i + |a| + |b|];
      assert (a + b)[..|a|] == a && (a + b)[|a|..] == b;
      assert w == w[..|a|] + w[|a|..];
    }
  }

  // ----------------------------------------------------------------- tokens

  /** What the text goes on with, told by two characters */
  predicate Looks(c: char, d: char, op: string) {
    (|op| == 1 && c == op[0]) || (|op| == 2 && c == op[0] && d == op[1])
  }

  predicate NoneLooks(c: char, d: char, ops: seq<string>) {
    forall k :: 0 <= k < |ops| ==> !Looks(c, d, ops[k])
  }

  lemma StartsLooks(t: Text, j: nat, op: string)
    requires 1 <= |op| <= 2 && '\0' !in op
    ensures Starts(t, j, op) <==> Looks(At(t, j), At(t, j + 1), op)
  {
    StartsAt(t, j, op);
  }

  lemma {:induction false} NoneStarts(t: Text, j: nat, ops: seq<string>)
    requires forall k :: 0 <= k < |ops| ==> !Starts(t, j, ops[k])
    ensures FirstOp(t, j, ops) == ""
  {
    if ops != [] {
      NoneStarts(t, j, ops[1..]);
    }
  }

  lemma {:induction false} OneStarts(t: Text, j: nat, ops: seq<string>, n: nat)
    requires n < |ops| && Starts(t, j, ops[n]) && forall k :: 0 <= k < n ==> !Starts(t, j, ops[k])
    ensures FirstOp(t, j, ops) == ops[n]
  {
    if n > 0 {
      OneStarts(t, j, ops[1..], n - 1);
    }
  }

  lemma {:induction false} OperatorsAreShort(level: nat)
    ensures forall k :: 0 <= k < |Operators(level)| ==>
      1 <= |Operators(level)[k]| <= 2 && '\0' !in Operators(level)[k]
    ensures |Guard(level)| <= 2 && '\0' !in Guard(level)
  {
  }

  /** The tokens between operands */
  predicate IsToken(tok: string) { IsBinary(tok) || tok == "?" || tok == ":" || tok == "=" || tok == "," }

  lemma TokenChars(t: Text, j: nat, tok: string)
    requires IsToken(tok) && Starts(t, j, tok + " ")
    ensures 1 <= |tok| <= 2 && At(t, j) == tok[0] && At(t, j + 1) == if |tok| == 1 then ' ' else tok[1]
    ensures !IsSpace(At(t, j)) && At(t, j + |tok|) == ' '
  {
    StartsAt(t, j, tok + " ");
    assert (tok + " ")[0] == tok[0] && (tok + " ")[|tok|] == ' ';
    assert |tok| == 2 ==> (tok + " ")[1] == tok[1];
  }

  /** A character that no operator starts with */
  lemma {:induction false} NoOperatorStarts(c: char, d: char, m: nat)
    requires 4 <= m <= 11
    requires c == ')' || c == ':' || c == '?' || c == ',' || c == ';' || c == '\0' || (c == '=' && d == ' ')
    ensures NoneLooks(c, d, Operators(12 - m))
  {
  }

  /** An operator is not taken for one of another strength, unless a guard is in the way. */
  lemma {:induction false} OtherStrength(tok: string, m: nat)
    requires IsBinary(tok) && Strength(tok) < m <= 11
    ensures 1 <= |tok| <= 2
    ensures var c, d := tok[0], if |tok| == 1 then ' ' else tok[1];
      (Guard(12 - m) != "" && Looks(c, d, Guard(12 - m))) ||
      NoneLooks(c, d, Operators(12 - m))
  {
  }

  lemma LooksStop(t: Text, j: nat, m: nat)
    requires 4 <= m <= 11
    requires (Guard(12 - m) != "" && Looks(At(t, j), At(t, j + 1), Guard(12 - m))) ||
      NoneLooks(At(t, j), At(t, j + 1), Operators(12 - m))
    ensures Stops(t, j, m)
  {
    hide Looks, Operators, FirstOp, Guard;
    var ops := Operators(12 - m);
    OperatorsAreShort(12 - m);
    if Guard(12 - m) != "" {
      StartsLooks(t, j, Guard(12 - m));
    }
    if NoneLooks(At(t, j), At(t, j + 1), ops) {
      forall k | 0 <= k < |ops|
        ensures !Starts(t, j, ops[k])
      {
        StartsLooks(t, j, ops[k]);
      }
      NoneStarts(t, j, ops);
    }
  }

  /** What is not an operator, a comma, a suffix and the like */
  lemma EndStops(t: Text, j: nat, m: nat)
    requires At(t, j) == ')' || At(t, j) == ';' || At(t, j) == '\0'
    ensures Stops(t, j, m)
  {
    hide FirstOp, Operators, Guard, Starts;
    StartsLooks(t, j, ",");
    StartsLooks(t, j, "=");
    StartsLooks(t, j, "?");
    if 4 <= m <= 11 {
      NoOperatorStarts(At(t, j), At(t, j + 1), m);
      LooksStop(t, j, m);
    } else if m == 13 {
      NoSuffix(t, j);
    }
  }

  lemma NoSuffix(t: Text, j: nat)
    requires At(t, j) != '[' && At(t, j) != '(' && At(t, j) != '.'
    ensures FirstOp(t, j, ["[", "(", "."]) == ""
  {
    NoOperator(t, j, ["[", "(", "."]);
  }

  lemma TokenStops(t: Text, j: nat, tok: string, m: nat)
    requires IsToken(tok) && Starts(t, j, tok + " ") && Strength(tok) < m
    ensures Stops(t, j, m)
  {
    hide FirstOp, Operators, Guard, Starts, Looks;
    TokenChars(t, j, tok);
    if 4 <= m <= 11 {
      if IsBinary(tok) {
        OtherStrength(tok, m);
      } else {
        NoOperatorStarts(At(t, j), At(t, j + 1), m);
      }
      LooksStop(t, j, m);
    } else {
      TokenStopsRest(t, j, tok, m);
    }
  }

  lemma TokenStopsRest(t: Text, j: nat, tok: string, m: nat)
    requires IsToken(tok) && Starts(t, j, tok + " ") && Strength(tok) < m && !(4 <= m <= 11)
    ensures Stops(t, j, m)
  {
    hide FirstOp, Operators, Guard, Starts;
    TokenChars(t, j, tok);
    StartsLooks(t, j, ",");
    StartsLooks(t, j, "=");
    StartsLooks(t, j, "?");
    if m == 13 {
      NoSuffix(t, j);
    }
  }

  /** An operator is taken at its own strength. */
  lemma {:induction false} OwnStrength(op: string) returns (n: nat)
    requires IsBinary(op)
    ensures var level := 12 - Strength(op);
      var c, d := op[0], if |op| == 1 then ' ' else op[1];
      && n < |Operators(level)| && Operators(level)[n] == op && 1 <= |op| <= 2 && Looks(c, d, op)
      && (forall k :: 0 <= k < n ==> !Looks(c, d, Operators(level)[k]))
      && !(Guard(level) != "" && Looks(c, d, Guard(level)))
  {
    n :=
      if op == "*" || op == "-" || op == "==" || Strength(op) <= 8 then 0
      else if op == "/" || op == "+" || op == "!=" then 1
      else if op == "%" || op == "<=" then 2
      else if op == ">=" then 3 else if op == "<" then 4 else 5;
  }

  lemma PicksOperator(t: Text, j: nat, op: string)
    requires IsBinary(op) && Starts(t, j, op + " ")
    ensures var level := 12 - Strength(op);
      FirstOp(t, j, Operators(level)) == op && !(Guard(level) != "" && Starts(t, j, Guard(level)))
  {
    hide FirstOp, Operators, Guard, Starts, Looks;
    TokenChars(t, j, op);
    var level := 12 - Strength(op);
    var n := OwnStrength(op);
    OperatorsAreShort(level);
    forall k | 0 <= k <= n
      ensures Starts(t, j, Operators(level)[k]) <==> k == n
    {
      StartsLooks(t, j, Operators(level)[k]);
    }
    if Guard(level) != "" {
      StartsLooks(t, j, Guard(level));
    }
    OneStarts(t, j, Operators(level), n);
  }
}
