/**
 * The command evaluator of navit/command.c, which parses and executes in one walk, and its skip mode,
 * which walks over text without executing it.  Running is proved to be parsing followed by running the tree,
 * and skipping to be parsing alone.
 */
module Command {
  import opened CommandTree
  import opened CommandGrammar
  import opened CommandMeaning
  import opened CommandSteps
  import opened CommandBraces
  import opened CommandEnds
  import opened CommandSteady

  datatype Error =
    | NoError | MissingDoubleQuote | MissingOpeningParenthesis | MissingClosingParenthesis | MissingColon
    | MissingSemicolon | WrongType | IllegalNumberFormat | IllegalCharacter | MissingClosingBracket
    | FilterNotModelled | EofReached

  class Context {
    const text: Text
    const env: Env
    var pos: nat
    var error: Error
    var skip: bool
    var log: Log

    constructor (text: Text, env: Env, skip: bool)
      ensures this.text == text && this.env == env && this.skip == skip
      ensures pos == 0 && error == NoError && log == []
    {
      this.text, this.env := text, env;
      pos, error, this.skip, log := 0, NoError, skip, [];
    }

    ghost predicate Valid()
      reads this
    {
      pos <= |text|
    }

    /** What every evaluation step keeps: the position moves on, errors stay, `skip` is restored. */
    twostate predicate Kept()
      reads this
    {
      && Valid() && old(pos) <= pos
      && skip == old(skip)
      && (old(error) != NoError ==> error != NoError)
      && (skip ==> log == old(log))
    }

    /** Whether a tree can be run, which is no question while skipping */
    ghost predicate Runs(e: Expr, start: Log)
      reads `skip
    {
      skip || Run(env, e, start).Done?
    }

    /** What running a tree gives; while skipping, nothing is ever given. */
    ghost predicate Gives(e: Expr, start: Log, res: Result)
      reads `skip, `log
    {
      if skip then res == BLANK else Run(env, e, start) == Done(res, log)
    }

    /**
     * A step succeeds exactly if there is a tree in the text and it can be run; then it ends behind the tree,
     * with what running the tree gives.
     */
    twostate predicate Follows(s: Parse, res: Result)
      reads this
    {
      && Kept() && (skip ==> res == BLANK)
      && (error == NoError ==> s.Ok? && s.pos == pos && Gives(s.expr, old(log), res))
      && (old(error) == NoError && error != NoError ==> s.Ok? ==> !Runs(s.expr, old(log)))
    }

    method Ask(event: Event) returns (a: Answer)
      requires !skip
      modifies `log
      ensures a == env.oracle(|old(log)|) && log == old(log) + [event]
    {
      a := env.oracle(|log|);
      log := log + [event];
    }

    method SkipBlanks()
      requires Valid()
      modifies `pos
      ensures pos == SkipSpaces(text, old(pos))
    {
      while pos < |text| && IsSpace(text[pos])
        invariant old(pos) <= pos <= |text|
        invariant SkipSpaces(text, pos) == SkipSpaces(text, old(pos))
        decreases |text| - pos
      {
        pos := pos + 1;
      }
    }

    /** get_op: skips spaces and takes, or only tests for, the first operator that matches */
    method GetOp(test: bool, ops: seq<string>) returns (op: string)
      requires Valid() && forall i :: 0 <= i < |ops| ==> ops[i] != ""
      modifies `pos
      ensures var j := SkipSpaces(text, old(pos));
        && op == FirstOp(text, j, ops)
        && pos == (if test then j else j + |op|) <= |text|
    {
      SkipBlanks();
      op := "";
      assert ops[0..] == ops;
      for i := 0 to |ops|
        invariant FirstOp(text, pos, ops) == FirstOp(text, pos, ops[i..])
        invariant pos == SkipSpaces(text, old(pos))
      {
        if pos + |ops[i]| <= |text| && text[pos..pos + |ops[i]|] == ops[i] {
          op := ops[i];
          if !test {
            pos := pos + |ops[i]|;
          }
          return;
        }
      }
    }

    /** get_op for one operator, only tested for */
    method Test(op: string) returns (found: bool)
      requires Valid() && op != ""
      modifies `pos
      ensures pos == SkipSpaces(text, old(pos)) && (found <==> Starts(text, pos, op))
    {
      var o := GetOp(true, [op]);
      found := o != "";
      assert [op][1..] == [];
    }

    /** get_op for one operator */
    method Take(op: string) returns (found: bool)
      requires Valid() && op != ""
      modifies `pos
      ensures var j := SkipSpaces(text, old(pos));
        && (found <==> Starts(text, j, op))
        && pos == (if found then j + |op| else j) <= |text|
    {
      var o := GetOp(false, [op]);
      found := o != "";
      assert [op][1..] == [];
    }

    // -------------------------------------------------------------- results

    /** resolve, with command_get_attr: fetches the attribute that a name stands for, unless skipping */
    method Resolve(res: Result) returns (r: Result)
      modifies `log
      ensures if skip then r == OnRoot(env, res) && log == old(log) else (r, log) == Fetched(env, res, old(log))
    {
      r := OnRoot(env, res);
      if r.attrn != "" && !skip {
        var a := Ask(GetAttr(r.attr, r.attrn));
        r := if a.found then Result(a.value, r.attrn, "") else BLANK;
      }
    }

    /** get_int_bool */
    method IntOrBool(isBool: bool, res: Result) returns (v: int, r: Result)
      modifies `log, `error
      ensures skip ==> log == old(log)
      ensures skip && res == BLANK ==> v == 0 && r == BLANK && error == old(error)
      ensures !skip ==> match ToInt(env, isBool, res, old(log))
        case Number(n, s, l) => (v, r, log) == (n, s, l) && error == old(error)
        case NoNumber => error == WrongType
      ensures error == old(error) || error == WrongType
    {
      r := Resolve(res);
      match r.attr
      case NoAttr => v := 0;
      case IntAttr(n) => v := n;
      case DoubleAttr(n) => v := n;
      case ObjectAttr(o) =>
        v := if isBool && o != 0 then 1 else 0;
        if !isBool {
          error := WrongType;
        }
      case TextAttr(_) =>
        v := if isBool then 1 else 0;
        if !isBool {
          error := WrongType;
        }
      case OtherAttr =>
        v := 0;
        error := WrongType;
    }

    /** result_op for a prefix operator */
    method PrefixOp(op: string, inout: Result) returns (r: Result)
      requires op == "!" || op == "~"
      modifies `log, `error
      ensures old(error) != NoError ==> error != NoError
      ensures skip ==> r == inout && log == old(log) && error == old(error)
      ensures !skip && old(error) == NoError ==> match PrefixValue(env, op, inout, old(log))
        case Done(s, l) => (r, log) == (s, l) && error == NoError
        case Fail => error != NoError
    {
      r := inout;
      if skip {
        return;
      }
      var v;
      v, r := IntOrBool(op == "!", inout);
      if op == "!" {
        r := Result(IntAttr(if v == 0 then 1 else 0), r.name, r.attrn);
      } else {
        r := Result(IntAttr(-v - 1), r.name, r.attrn);
      }
    }

    /** result_op for a binary operator */
    method BinaryOp(op: string, inout: Result, other: Result) returns (r: Result)
      modifies `log, `error
      ensures old(error) != NoError ==> error != NoError
      ensures skip ==> r == inout && log == old(log) && error == old(error)
      ensures !skip && old(error) == NoError ==> match BinaryValue(env, op, inout, other, old(log))
        case Done(s, l) => (r, log) == (s, l) && error == NoError
        case Fail => error != NoError
    {
      r := inout;
      if skip {
        return;
      }
      var left := Resolve(inout);
      var right := Resolve(other);
      r := OperatorOp(op, left, right);
    }

    /** Its switch over the operators; operands are resolved once more where they are converted */
    method OperatorOp(op: string, left: Result, right: Result) returns (r: Result)
      requires !skip
      modifies `log, `error
      ensures old(error) != NoError ==> error != NoError
      ensures old(error) == NoError ==> match OperatorValue(env, op, left, right, old(log))
        case Done(s, l) => (r, log) == (s, l) && error == NoError
        case Fail => error != NoError
    {
      hide ToInt, Fetched;
      var value;
      r := left;
      var same := Compared(left.attr, right.attr);
      if op == "==" && same != Numeric {
        value := Truth(same == Same);
      } else if op == "!=" && same != Numeric {
        value := Truth(same == Different);
      } else if op == "+" && left.attr.TextAttr? && right.attr.TextAttr? {
        value := TextAttr(left.attr.text + right.attr.text);
      } else if op == "-" {
        r := Resolve(left);
        var other := Resolve(right);
        var a := Ask(Compute(op, r.attr, other.attr));
        value := AsDouble(a.value);
      } else if op == "&&" || op == "||" {
        r, value := LogicalOp(op, left, right);
      } else {
        var l, m, other;
        l, r := IntOrBool(false, left);
        m, other := IntOrBool(false, right);
        match op
        case "==" => value := Truth(l == m);
        case "!=" => value := Truth(l != m);
        case "<" => value := Truth(l < m);
        case "<=" => value := Truth(l <= m);
        case ">" => value := Truth(l > m);
        case ">=" => value := Truth(l >= m);
        case "*" => value := IntAttr(l * m);
        case "/" => value := IntAttr(l * m);
        case "+" => value := IntAttr(l + m);
        case _ =>
          var a := Ask(Compute(op, r.attr, other.attr));
          value := AsInt(a.value);
      }
      r := Result(value, r.name, r.attrn);
    }

    /** The cases `&&` and `||`: the right operand is converted only if the left one does not decide */
    method LogicalOp(op: string, left: Result, right: Result) returns (r: Result, value: Attr)
      requires !skip && (op == "&&" || op == "||")
      modifies `log, `error
      ensures old(error) != NoError ==> error != NoError
      ensures old(error) == NoError ==> match LogicalValue(env, op, left, right, old(log))
        case Done(s, l) => (Result(value, r.name, r.attrn), log) == (s, l) && error == NoError
        case Fail => error != NoError
    {
      hide ToInt;
      var l;
      l, r := IntOrBool(false, left);
      var decided := if op == "&&" then l == 0 else l != 0;
      var m := l;
      if !decided {
        var other;
        m, other := IntOrBool(false, right);
      }
      value := Truth(m != 0);
    }

    /** command_set_attr; the new value becomes the result */
    method SetAttribute(target: Result, value: Result) returns (r: Result)
      modifies `log
      ensures if skip then r == target && log == old(log) else (r, log) == Assigned(env, target, value, old(log))
    {
      r := target;
      if skip {
        return;
      }
      var attr := env.typed(target.attrn, value.attr);
      var a := Ask(SetAttr(target.attr, target.attrn, attr));
      if a.found {
        r := Result(attr, value.name, value.attrn);
      }
    }

    // ---------------------------------------------------------------- values

    /** eval_value */
    method EvalValue() returns (res: Result)
      requires Valid()
      modifies `pos, `error
      ensures Follows(ParseValue(text, SkipSpaces(text, old(pos))), res)
    {
      hide ParseNumber, ParseQuoted, NameEnd, SkipSpaces, IsSpace;
      res := BLANK;
      SkipBlanks();
      var start := pos;
      var c := At(text, start);
      if IsLetter(c) {
        var op := NameEnd(text, start);
        if !skip {
          res := Result(NoAttr, text[start..op], "");
        }
        pos := op;
      } else if StartsNumber(text, start) {
        res := EvalNumber();
      } else if c == '"' {
        res := EvalQuoted();
      } else if start == |text| {
        error := EofReached;
      } else {
        error := IllegalCharacter;
      }
    }

    /** Its part for numbers */
    method EvalNumber() returns (res: Result)
      requires Valid()
      modifies `pos, `error
      ensures Follows(ParseNumber(text, old(pos)), res)
    {
      hide SkipSpaces, IsSpace, Whole, Decimal;
      res := BLANK;
      var dots, op := 0, pos;
      while IsDigit(At(text, op)) || At(text, op) == '.' || At(text, op) == '-'
        invariant pos <= op <= |text| && dots <= 1
        invariant NumberEnd(text, op, dots) == NumberEnd(text, pos, 0)
        invariant dots > 0 <==> '.' in text[pos..op]
        decreases |text| - op
      {
        assert text[pos..op + 1] == text[pos..op] + [text[op]];
        if At(text, op) == '.' {
          dots := dots + 1;
        }
        if dots > 1 {
          error := IllegalNumberFormat;
          return;
        }
        op := op + 1;
      }
      if !skip {
        res := Result(if dots > 0 then DoubleAttr(Decimal(text, pos)) else IntAttr(Whole(text, pos)), "", "");
      }
      pos := op;
    }

    /** Its part for quoted strings */
    method EvalQuoted() returns (res: Result)
      requires Valid() && At(text, pos) == '"'
      modifies `pos, `error
      ensures Follows(ParseQuoted(text, old(pos)), res)
    {
      hide QuoteEnd, CopyEnd, Copied, SkipSpaces, IsSpace;
      res := BLANK;
      var found, escaped, op := FindQuote();
      if !found {
        error := MissingDoubleQuote;
        return;
      }
      if escaped {
        var copy, end := CopyQuoted(op);
        if !skip {
          res := Result(TextAttr(copy), "", "");
        }
        pos := end + 1;
      } else {
        if !skip {
          res := Result(TextAttr(text[pos + 1..op]), "", "");
        }
        pos := op + 1;
      }
    }

    /** The loop that looks for the closing quote and for backslashes */
    method FindQuote() returns (found: bool, escaped: bool, op: nat)
      requires Valid() && At(text, pos) == '"'
      ensures QuoteEnd(text, pos + 1) == if found then Upto(op) else Nowhere
      ensures found ==> pos < op && escaped == ('\\' in text[pos..op])
    {
      hide SkipSpaces, IsSpace, QuoteEnd;
      escaped, op := false, pos + 1;
      while op < |text| && text[op] != '"'
        invariant pos < op <= |text|
        invariant QuoteEnd(text, op) == QuoteEnd(text, pos + 1)
        invariant escaped == ('\\' in text[pos..op])
        decreases |text| - op
      {
        QuoteStep(text, op);
        InLonger(text, pos, op);
        if text[op] == '\\' {
          escaped := true;
          if At(text, op + 1) == '"' {
            op := op + 1;
            InLonger(text, pos, op);
          }
        }
        op := op + 1;
      }
      found := op < |text|;
      QuoteStop(text, op);
    }

    /** The copying loop: drops each backslash and keeps the character behind it */
    method CopyQuoted(close: nat) returns (copy: string, end: nat)
      requires pos < close < |text| && text[close] == '"' && (pos + 1 < close ==> text[close - 1] != '\\')
      ensures end == CopyEnd(text, pos + 1, close) && copy == Copied(text, pos + 1, close)
    {
      hide SkipSpaces, IsSpace, At, CopyEnd, Copied;
      copy, end := "", pos + 1;
      while text[end] != '"'
        invariant pos < end <= close
        invariant CopyEnd(text, end, close) == CopyEnd(text, pos + 1, close)
        invariant copy + Copied(text, end, close) == Copied(text, pos + 1, close)
        decreases |text| - end
      {
        CopyStep(text, end, close);
        if text[end] == '\\' {
          end := end + 1;
        }
        copy := copy + [text[end]];
        end := end + 1;
      }
      CopyStop(text, end, close);
    }


    // ----------------------------------------------------------- expressions

    /** eval_brace */
    method EvalBrace() returns (res: Result)
      requires Valid()
      modifies `pos, `error, `skip, `log
      ensures Follows(ParseBrace(text, old(pos)), res)
      decreases |text| - pos, 1
    {
      hide SkipSpaces, Starts, ParseComma, ParseValue, Run;
      var open := Take("(");
      if open {
        res := EvalComma();
        if error != NoError {
          return;
        }
        var close := Take(")");
        if !close {
          error := MissingClosingParenthesis;
        }
        return;
      }
      res := EvalValue();
    }

    /** eval_list: the arguments of a call of f */
    method EvalList(ghost f: Expr) returns (args: seq<Attr>)
      requires Valid()
      modifies `pos, `error, `skip, `log
      ensures Kept()
      ensures error == NoError ==> var s := ParseArguments(text, old(pos), f, NoExprs);
        s.Ok? && s.pos == pos && (skip || RunArgs(env, s.expr.args, old(log)) == Arguments(args, log))
      ensures old(error) == NoError && error != NoError ==> var s := ParseArguments(text, old(pos), f, NoExprs);
        s.Ok? ==> !skip && RunArgs(env, s.expr.args, old(log)).BadArguments?
      decreases |text| - pos, 33
    {
      hide SkipSpaces, Starts, ParseAssignment, Run, IsSpace, At;
      args := [];
      ghost var done := NoExprs;
      while true
        invariant Kept() && error == old(error)
        invariant ParseArguments(text, pos, f, done) == ParseArguments(text, old(pos), f, NoExprs)
        invariant !skip ==> RunArgs(env, done, old(log)) == Arguments(args, log)
        decreases |text| - pos
      {
        ghost var before := pos;
        var tmp := EvalAssignment();
        if error != NoError {
          if old(error) == NoError && !skip && ParseAssignment(text, before).Ok? {
            ArgumentFails(env, text, before, f, done, old(log));
          }
          return [];
        }
        tmp := Resolve(tmp);
        args := args + [tmp.attr];
        done := AndExpr(done, ParseAssignment(text, before).expr);
        var more := Take(",");
        if !more {
          return;
        }
      }
    }

    /** command_call_function, from behind the opening parenthesis; f was run before */
    method CallFunction(res: Result, ghost f: Expr, ghost start: Log) returns (r: Result)
      requires Valid() && (skip ==> res == BLANK)
      requires error == NoError ==> skip || Run(env, f, start).Done?
      requires error == NoError && !skip ==>
        res == OnRoot(env, Run(env, f, start).res) && log == Run(env, f, start).log
      modifies `pos, `error, `skip, `log
      ensures Kept() && (skip ==> r == BLANK)
      ensures old(error) == NoError ==> var s := ParseCall(text, old(pos), f);
        if error == NoError then s.Ok? && s.pos == pos && Gives(s.expr, start, r) else s.Ok? ==> !Runs(s.expr, start)
      decreases |text| - pos, 34
    {
      hide SkipSpaces, Starts, ParseArguments, Run, RunArgs, IsSpace, At;
      r := res;
      var args := [];
      ghost var list :=
        if At(text, pos) == ')' then Ok(Apply(f, NoExprs), pos) else ParseArguments(text, pos, f, NoExprs);
      if error == NoError && !skip && list.Ok? {
        ApplyRuns(env, f, list.expr.args, start);
        NoArgumentsRun(env, log);
      }
      if At(text, pos) != ')' {
        args := EvalList(f);
        if error != NoError {
          return;
        }
      }
      var close := Take(")");
      if !close {
        error := MissingClosingParenthesis;
        return;
      }
      if !skip {
        var a := Ask(Call(res.attr, res.attrn, args));
        if res.attrn != "add_attr" && res.attrn != "remove_attr" {
          r := Result(if a.found then a.value else NoAttr, "", "");
        }
      }
      r := Result(r.attr, "", "");
    }

    /** eval_postfix */
    method EvalPostfix() returns (res: Result)
      requires Valid()
      modifies `pos, `error, `skip, `log
      ensures Follows(ParsePostfix(text, old(pos)), res)
      decreases |text| - pos, 17
    {
      hide SkipSpaces, Starts, FirstOp, ParseBrace, ParseSuffixes, Run;
      res := EvalBrace();
      if error != NoError {
        if old(error) == NoError && !skip && ParseBrace(text, old(pos)).Ok? {
          SuffixesFail(env, text, ParseBrace(text, old(pos)).pos, ParseBrace(text, old(pos)).expr, old(log));
        }
        return;
      }
      var more := true;
      ghost var e := ParseBrace(text, old(pos)).expr;
      while more
        invariant Kept() && (skip ==> res == BLANK) && old(pos) < pos && old(error) == NoError
        invariant error == NoError ==>
          && ParsePostfix(text, old(pos)) == (if more then ParseSuffixes(text, pos, e) else Ok(e, pos))
          && Gives(e, old(log), res)
        invariant error != NoError ==> var s := ParsePostfix(text, old(pos)); s.Ok? ==> !Runs(s.expr, old(log))
        decreases |text| - pos, more
      {
        res, more, e := EvalSuffix(res, e, old(log));
      }
    }

    /** One round of its loop: an attribute, empty brackets or a call; false when the value is complete. */
    method EvalSuffix(value: Result, ghost e: Expr, ghost start: Log)
      returns (res: Result, more: bool, ghost next: Expr)
      requires Valid() && (skip ==> value == BLANK) && (error == NoError ==> Gives(e, start, value))
      modifies `pos, `error, `skip, `log
      ensures Kept() && (skip ==> res == BLANK) && (more ==> pos > old(pos))
      ensures error == NoError ==> Gives(next, start, res)
      ensures error == NoError ==>
        ParseSuffixes(text, old(pos), e) == if more then ParseSuffixes(text, pos, next) else Ok(next, pos)
      ensures old(error) == NoError && error != NoError ==>
        var s := ParseSuffixes(text, old(pos), e); s.Ok? ==> !Runs(s.expr, start)
      decreases |text| - pos, 35
    {
      hide SkipSpaces, FirstOp, Starts, ParseBrace, ParseCall, Run, IsSpace, At;
      res, more, next := value, true, e;
      var op := GetOp(false, ["[", "(", "."]);
      if op == "" {
        more := false;
      } else if op == "." {
        res, more, next := EvalMember(value, e, start);
      } else if op == "[" {
        res, more, next := EvalIndexed(value, e, start);
      } else {
        ghost var call := ParseCall(text, pos, e);
        res := OnRoot(env, res);
        res := CallFunction(res, e, start);
        if call.Ok? {
          next := call.expr;
          if old(error) == NoError && error != NoError {
            SuffixesFail(env, text, call.pos, call.expr, start);
          }
        }
      }
    }

    /** The round for an attribute, from behind the dot */
    method EvalMember(value: Result, ghost e: Expr, ghost start: Log)
      returns (res: Result, more: bool, ghost next: Expr)
      requires Valid() && (skip ==> value == BLANK) && (error == NoError ==> Gives(e, start, value))
      modifies `pos, `error, `skip, `log
      ensures Kept() && (skip ==> res == BLANK) && (error == NoError ==> more)
      ensures error == NoError ==> var m := ParseBrace(text, old(pos));
        m.Ok? && m.pos == pos && next == Member(e, m.expr) && Gives(next, start, res)
      ensures old(error) == NoError && error != NoError ==> var m := ParseBrace(text, old(pos));
        m.Ok? ==> var s := ParseSuffixes(text, m.pos, Member(e, m.expr)); s.Ok? ==> !Runs(s.expr, start)
      decreases |text| - pos, 3
    {
      hide ParseBrace, ParseSuffixes;
      ghost var m := ParseBrace(text, pos);
      res, more, next := value, false, e;
      var tmp := EvalBrace();
      if m.Ok? {
        next := Member(e, m.expr);
      }
      if error != NoError {
        if old(error) == NoError && m.Ok? && !skip {
          SuffixesFail(env, text, m.pos, next, start);
        }
        return;
      }
      res := Resolve(res);
      res := Result(res.attr, res.name, tmp.name);
      more := true;
    }

    /** The round for empty brackets, from behind the opening one; a filter is left out, and ends the evaluation */
    method EvalIndexed(value: Result, ghost e: Expr, ghost start: Log)
      returns (res: Result, more: bool, ghost next: Expr)
      requires Valid() && (skip ==> value == BLANK) && (error == NoError ==> Gives(e, start, value))
      modifies `pos, `error, `skip, `log
      ensures Kept() && (skip ==> res == BLANK) && (error == NoError ==> more)
      ensures var k := SkipSpaces(text, old(pos));
        && (error == NoError ==> Starts(text, k, "]") && pos == k + 1 && next == Indexed(e) && Gives(next, start, res))
        && (old(error) == NoError && error != NoError ==> !Starts(text, k, "]"))
      ensures more ==> pos > old(pos)
    {
      hide SkipSpaces, Starts, Run, IsSpace, At;
      res, more, next := OnRoot(env, value), false, Indexed(e);
      IndexedRuns(env, e, start);
      if error != NoError {
        return;
      }
      SpacesSkipped(text, pos);
      var filter := Test("@");
      more := Take("]");
      if !more {
        error := if filter then FilterNotModelled else MissingClosingBracket;
      }
    }

    /** eval_unary */
    method EvalUnary() returns (res: Result)
      requires Valid()
      modifies `pos, `error, `skip, `log
      ensures Follows(ParseLevel(0, text, old(pos)), res)
      decreases |text| - pos, 18
    {
      hide SkipSpaces, FirstOp, ParsePostfix, PrefixValue, Run;
      var op := GetOp(false, ["~", "!"]);
      if op != "" {
        ghost var operand := ParseLevel(0, text, pos);
        if operand.Ok? {
          PrefixRuns(env, op, operand.expr, log);
        }
        res := EvalUnary();
        if error != NoError {
          return;
        }
        res := PrefixOp(op, res);
      } else {
        res := EvalPostfix();
      }
    }

    /** eval_unary for level 0; eval_multiplicative to eval_logical_or for levels 1 to 8 */
    method EvalLevel(level: nat) returns (res: Result)
      requires Valid() && level <= LAST_LEVEL
      modifies `pos, `error, `skip, `log
      ensures Follows(ParseLevel(level, text, old(pos)), res)
      decreases |text| - pos, 19 + level
    {
      hide SkipSpaces, ParseTail, ParsePostfix, FirstOp, Run;
      if level == 0 {
        res := EvalUnary();
        return;
      }
      ghost var first := ParseLevel(level - 1, text, pos);
      res := EvalLevel(level - 1);
      if error != NoError {
        if old(error) == NoError && !skip && first.Ok? {
          TailFails(env, level, text, first.pos, first.expr, old(log));
        }
        return;
      }
      var more := true;
      ghost var e := first.expr;
      while more
        invariant Kept() && (skip ==> res == BLANK) && old(pos) < pos && old(error) == NoError
        invariant error == NoError ==>
          && ParseLevel(level, text, old(pos)) == (if more then ParseTail(level, text, pos, e) else Ok(e, pos))
          && Gives(e, old(log), res)
        invariant error != NoError ==> !more
        invariant error != NoError ==> var s := ParseLevel(level, text, old(pos)); s.Ok? ==> !Runs(s.expr, old(log))
        decreases |text| - pos, more
      {
        res, more, e := EvalOperand(level, res, e, old(log));
      }
    }

    /** One round of the loop of a binary level; false when there is no further operand. */
    method EvalOperand(level: nat, left: Result, ghost e: Expr, ghost start: Log)
        returns (res: Result, more: bool, ghost next: Expr)
      requires Valid() && 1 <= level <= LAST_LEVEL && error == NoError && Gives(e, start, left)
      modifies `pos, `error, `skip, `log
      ensures Kept() && (skip ==> res == BLANK) && (more ==> pos > old(pos) && error == NoError)
      ensures error == NoError ==> Gives(next, start, res)
      ensures error == NoError ==>
        ParseTail(level, text, old(pos), e) == if more then ParseTail(level, text, pos, next) else Ok(next, pos)
      ensures error != NoError ==> var s := ParseTail(level, text, old(pos), e); s.Ok? ==> !Runs(s.expr, start)
      decreases |text| - pos, 18 + level
    {
      hide SkipSpaces, ParseLevel, Operators, Guard, Starts, BinaryValue, FirstOp, Run;
      res, more, next := left, false, e;
      if Guard(level) != "" {
        var guard := Test(Guard(level));
        if guard {
          return;
        }
      }
      var op := GetOp(false, Operators(level));
      if op == "" {
        return;
      }
      ghost var right := ParseLevel(level - 1, text, pos);
      var tmp := EvalLevel(level - 1);
      if error == NoError {
        res := BinaryOp(op, res, tmp);
      }
      if right.Ok? {
        next := Binary(op, e, right.expr);
        BinaryRuns(env, op, e, right.expr, start);
        if error != NoError && !skip {
          TailFails(env, level, text, right.pos, next, start);
        }
      }
      more := error == NoError;
    }

    /** One branch of `?:`, walked over with its own skip flag. */
    method EvalBranch(skipIt: bool) returns (res: Result)
      requires Valid() && (skip ==> skipIt) && error == NoError
      modifies `pos, `error, `skip, `log
      ensures Kept() && (skipIt ==> res == BLANK && log == old(log))
      ensures var s := ParseLevel(LAST_LEVEL, text, old(pos));
        && (error == NoError ==> s.Ok? && s.pos == pos && (skipIt || Run(env, s.expr, old(log)) == Done(res, log)))
        && (error != NoError ==> s.Ok? ==> !skipIt && Run(env, s.expr, old(log)).Fail?)
      decreases |text| - pos, 28
    {
      hide ParseLevel, Run;
      var saved := skip;
      skip := skipIt;
      res := EvalLevel(LAST_LEVEL);
      skip := saved;
    }

    /** eval_conditional */
    method EvalConditional() returns (res: Result)
      requires Valid()
      modifies `pos, `error, `skip, `log
      ensures Follows(ParseConditional(text, old(pos)), res)
      decreases |text| - pos, 30
    {
      hide SkipSpaces, Starts, ParseLevel, ParseBranches, IsSpace, At, Run;
      ghost var c := ParseLevel(LAST_LEVEL, text, pos);
      res := EvalLevel(LAST_LEVEL);
      if error != NoError {
        if c.Ok? && old(error) == NoError && !skip {
          ConditionFails(env, text, old(pos), old(log));
        }
        return;
      }
      var question := Take("?");
      if question {
        res := EvalBranches(res, c.expr, old(log));
      }
    }

    /** Its part behind the question mark */
    method EvalBranches(value: Result, ghost c: Expr, ghost start: Log) returns (res: Result)
      requires Valid() && error == NoError && Gives(c, start, value)
      modifies `pos, `error, `skip, `log
      ensures Kept() && (skip ==> res == BLANK)
      ensures var s := ParseBranches(text, old(pos), c);
        if error == NoError then s.Ok? && s.pos == pos && Gives(s.expr, start, res) else s.Ok? ==> !Runs(s.expr, start)
      decreases |text| - pos, 29
    {
      hide SkipSpaces, Starts, ParseLevel, ParseBranches, IsSpace, At, ToInt, Run;
      BranchesRun(env, text, pos, c, start);
      var cond;
      cond, res := IntOrBool(true, value);
      if error != NoError {
        return;
      }
      res := EvalBranch(cond == 0 || skip);
      if error != NoError {
        return;
      }
      var colon := Take(":");
      if !colon {
        error := MissingColon;
        return;
      }
      var tmp := EvalBranch(cond != 0 || skip);
      if error != NoError {
        return;
      }
      if cond == 0 {
        res := tmp;
      }
    }

    /** eval_assignment */
    method EvalAssignment() returns (res: Result)
      requires Valid()
      modifies `pos, `error, `skip, `log
      ensures Follows(ParseAssignment(text, old(pos)), res)
      decreases |text| - pos, 31
    {
      hide SkipSpaces, Starts, ParseConditional, IsSpace, At;
      res := EvalConditional();
      if error != NoError {
        return;
      }
      var assign := Take("=");
      if !assign {
        return;
      }
      var tmp := EvalConditional();
      if error != NoError {
        return;
      }
      tmp := Resolve(tmp);
      res := SetAttribute(OnRoot(env, res), tmp);
    }

    /** eval_comma */
    method EvalComma() returns (res: Result)
      requires Valid()
      modifies `pos, `error, `skip, `log
      ensures Follows(ParseComma(text, old(pos)), res)
      decreases |text| - pos, 32
    {
      hide SkipSpaces, Starts, ParseAssignment, IsSpace, At, Run;
      ghost var first := ParseAssignment(text, pos);
      res := EvalAssignment();
      if error != NoError {
        if old(error) == NoError && !skip && first.Ok? {
          CommaTailFails(env, text, first.pos, first.expr, old(log));
        }
        return;
      }
      ghost var e := first.expr;
      while true
        invariant Kept() && old(pos) < pos && error == NoError == old(error)
        invariant ParseComma(text, old(pos)) == ParseCommaTail(text, pos, e) && Gives(e, old(log), res)
        decreases |text| - pos
      {
        var more := Take(",");
        if !more {
          return;
        }
        ghost var next := ParseAssignment(text, pos);
        ghost var before := log;
        var tmp := EvalAssignment();
        if next.Ok? {
          CommaRuns(env, e, next, old(log));
        }
        if error != NoError {
          if !skip && next.Ok? {
            CommaTailFails(env, text, next.pos, Comma(e, next.expr), old(log));
          }
          return;
        }
        e := Comma(e, next.expr);
        res := tmp;
      }
    }

    // ------------------------------------------------------------ statements

    /** A step returns what it should, stops where it should and leaves the log so, or ends in an error if it should. */
    twostate predicate Completes(st: Stop, ret: bool)
      reads this
    {
      && Kept() && (ret ==> old(pos) < pos)
      && (old(error) == NoError ==>
        if error == NoError then st.Stop? && ret == st.ret && pos == st.pos && log == st.log else st.Broken?)
    }

    /** command_evaluate_single */
    method EvalSingle() returns (ret: bool)
      requires Valid()
      modifies `pos, `error, `skip, `log
      ensures Completes(StepOrWalk(env, text, old(pos), old(log), !skip), ret)
      decreases |text| - pos, 40
    {
      hide SkipSpaces, Starts, FirstOp, ParseComma, ParseForeach, ParseIf, ParseBlock;
      hide Run, StepForeach, StepIf, StepBlock;
      ret := false;
      var op := GetOp(false, ["foreach", "if", "{"]);
      match op
      case "foreach" => ret := EvalForeach();
      case "if" => ret := EvalIf();
      case "{" => ret := EvalBlock();
      case _ =>
        var res := EvalComma();
        if error != NoError {
          return;
        }
        res := Resolve(res);
        ret := Take(";");
    }

    /** A statement that is executed or walked over, with its own skip flag */
    method EvalSkipping(skipIt: bool) returns (ret: bool)
      requires Valid() && (skip ==> skipIt)
      modifies `pos, `error, `skip, `log
      ensures Completes(StepOrWalk(env, text, old(pos), old(log), !skipIt), ret) && (skipIt ==> log == old(log))
      decreases |text| - pos, 41
    {
      hide StepOrWalk;
      var saved := skip;
      skip := skipIt;
      ret := EvalSingle();
      skip := saved;
    }

    /** The `{` case */
    method EvalBlock() returns (ret: bool)
      requires Valid()
      modifies `pos, `error, `skip, `log
      ensures Completes(if skip then Walked(ParseBlock(text, old(pos), NoStmts), old(log))
                        else StepBlock(env, text, old(pos), old(log), 0), ret)
      decreases |text| - pos, 42
    {
      hide SkipSpaces, Starts, ParseStatement, Step;
      ret := true;
      ghost var done := NoStmts;
      ghost var cut: nat := 0;
      ghost var whole := if skip then Walked(ParseBlock(text, pos, done), log) else StepBlock(env, text, pos, log, cut);
      while true
        invariant Kept()
        invariant old(error) == NoError ==>
          if error != NoError then whole.Broken?
          else if skip then whole == Walked(ParseBlock(text, pos, done), log)
          else whole == StepBlock(env, text, pos, log, cut)
        decreases |text| - pos
      {
        var close := Take("}");
        if close {
          return;
        }
        ghost var one := ParseStatement(text, pos);
        ghost var step := Step(env, text, pos, log);
        ret := EvalSingle();
        if one.Statement? {
          done := AndStmt(done, one.stmt);
        }
        if step.Stop? {
          cut := cut + step.cut;
        }
        if !ret {
          return;
        }
      }
    }

    /** The `if` case */
    method EvalIf() returns (ret: bool)
      requires Valid()
      modifies `pos, `error, `skip, `log
      ensures Completes(if skip then Walked(ParseIf(text, old(pos)), old(log))
                        else StepIf(env, text, old(pos), old(log)), ret)
      decreases |text| - pos, 39
    {
      hide SkipSpaces, Starts, ParseCondition, ParseThen, Decided, StepThen;
      ghost var c := ParseCondition(text, pos);
      var cond := EvalCondition();
      if error != NoError {
        return false;
      }
      ret := EvalThen(cond, c.expr);
    }

    /** The condition of an `if` */
    method EvalCondition() returns (cond: int)
      requires Valid()
      modifies `pos, `error, `skip, `log
      ensures Kept() && (skip ==> cond == 0) && (error == NoError ==> old(pos) < pos)
      ensures error == NoError ==> var s := ParseCondition(text, old(pos));
        && s.Ok? && s.pos == pos
        && (!skip ==> var d := Decided(env, s.expr, old(log)); d.Number? && d.value == cond && d.log == log)
      ensures old(error) == NoError && error != NoError ==> var s := ParseCondition(text, old(pos));
        s.Ok? ==> !skip && Decided(env, s.expr, old(log)).NoNumber?
      decreases |text| - pos, 35
    {
      hide SkipSpaces, Starts, ParseComma, Run, ToInt, IsSpace, At;
      cond := 0;
      var open := Take("(");
      if !open {
        error := MissingOpeningParenthesis;
        return;
      }
      var res := EvalComma();
      if !skip && error == NoError {
        cond, res := IntOrBool(true, res);
      }
      if error != NoError {
        return;
      }
      var close := Take(")");
      if !close {
        error := MissingClosingParenthesis;
      }
    }

    /** The branches of an `if`, one of them skipped; what they return is not looked at */
    method EvalThen(cond: int, ghost c: Expr) returns (ret: bool)
      requires Valid() && error == NoError && (skip ==> cond == 0)
      modifies `pos, `error, `skip, `log
      ensures Kept() && (ret <==> error == NoError)
      ensures var st := if skip then Walked(ParseThen(text, old(pos), c), old(log))
                        else StepThen(env, text, old(pos), cond != 0, old(log));
        if error == NoError then st.Stop? && ret == st.ret && pos == st.pos && log == st.log else st.Broken?
      decreases |text| - pos, 43
    {
      hide ParseStatement, ParseElse, Step, StepElse;
      ghost var yes := ParseStatement(text, pos);
      ghost var first := StepOrWalk(env, text, pos, log, !(cond == 0 || skip));
      var done := EvalSkipping(cond == 0 || skip);
      if error != NoError {
        return false;
      }
      ret := EvalElse(cond, c, if yes.Statement? then yes.stmt else Block(NoStmts), first.cut);
    }

    /** What follows the first branch of an `if` */
    method EvalElse(cond: int, ghost c: Expr, ghost yes: Stmt, ghost cut: nat) returns (ret: bool)
      requires Valid() && error == NoError && (skip ==> cond == 0)
      modifies `pos, `error, `skip, `log
      ensures Kept() && (ret <==> error == NoError)
      ensures var st := if skip then Walked(ParseElse(text, old(pos), c, yes), old(log))
                        else StepElse(env, text, old(pos), cond != 0, old(log), cut);
        if error == NoError then st.Stop? && ret == st.ret && pos == st.pos && log == st.log else st.Broken?
      decreases |text| - pos, 42
    {
      hide SkipSpaces, Starts, ParseStatement, Step;
      ret := false;
      var otherwise := Take("else");
      if otherwise {
        var done := EvalSkipping(cond != 0 || skip);
        if error != NoError {
          return;
        }
      }
      ret := true;
    }

    /** The `foreach` case: the variable and the body are first walked over, then run for each object */
    method EvalForeach() returns (ret: bool)
      requires Valid()
      modifies `pos, `error, `skip, `log
      ensures Completes(if skip then Walked(ParseForeach(text, old(pos)), old(log))
                        else StepForeach(env, text, old(pos), old(log)), ret)
      decreases |text| - pos, 39
    {
      hide SkipSpaces, Starts, ParseVariable, ParseComma, ParseStatement, Run;
      hide IsSpace, At, StepRounds, Closed, VariableAt;
      ret := false;
      ghost var v := ParseVariable(text, pos);
      var found, variable := ForeachVariable();
      if !found {
        return;
      }
      ghost var source := Closed(text, ParseComma(text, pos));
      var closed, res := EvalSource();
      if !closed {
        return;
      }
      var body := pos;
      var done := EvalSkipping(true);
      if !done {
        return;
      }
      if skip {
        return true;
      }
      ret := EvalRounds(res, variable, body, if v.Ok? then v.expr else Literal(NoAttr));
    }

    /** What is left to do for a foreach when the body was walked over: to find the objects and to run the body */
    method EvalRounds(res: Result, variable: nat, body: nat, ghost v: Expr) returns (ret: bool)
      requires Valid() && !skip && variable < body < pos
      requires error == NoError ==> VariableAt(text, variable, v)
      modifies `pos, `error, `skip, `log
      ensures Rounded(StepRounds(env, text, v, body, old(pos), res, old(log)), variable, ret)
      decreases |text| - variable, 36
    {
      hide Step, StepEach, VariableAt;
      ret := false;
      if !(res.attr.ObjectAttr? && res.attr.obj != 0) {
        return;
      }
      var items := Ask(Iterate(res.attr, res.attrn));
      if !items.found {
        return;
      }
      ret := RunBody(variable, body, items.items, v);
    }

    /** The rounds of a foreach stop somewhere behind its variable. */
    twostate predicate Rounded(st: Stop, variable: nat, ret: bool)
      reads this
    {
      && Valid() && !skip && (old(error) != NoError ==> error != NoError)
      && variable <= pos && (ret ==> variable < pos)
      && (old(error) == NoError ==>
        if error == NoError then st.Stop? && ret == st.ret && pos == st.pos && log == st.log else st.Broken?)
    }

    /** The rounds of a foreach: sets the variable and runs the body, for each object */
    method RunBody(variable: nat, body: nat, items: seq<Attr>, ghost v: Expr) returns (ret: bool)
      requires Valid() && !skip && variable < body < pos
      requires error == NoError ==> VariableAt(text, variable, v)
      modifies `pos, `error, `skip, `log
      ensures Rounded(StepEach(env, text, v, body, old(pos), items, old(log)), variable, ret)
      decreases |text| - variable, 35
    {
      hide ParseConditional, ParseStatement, Step, Run;
      ret := false;
      var end := pos;
      ghost var whole := StepEach(env, text, v, body, end, items, log);
      assert items[0..] == items;
      for k := 0 to |items|
        invariant Valid() && !skip && (old(error) != NoError ==> error != NoError)
        invariant old(error) == NoError ==>
          if error == NoError then whole == StepEach(env, text, v, body, end, items[k..], log) else whole.Broken?
      {
        assert items[k..][1..] == items[k + 1..];
        pos := variable;
        var target := EvalConditional();
        if error != NoError {
          return;
        }
        var _ := SetAttribute(OnRoot(env, target), Result(items[k], "", ""));
        pos := body;
        var done := EvalSingle();
        if !done {
          return;
        }
      }
      pos := end;
      ret := true;
    }

    /** What a foreach iterates over, and the closing parenthesis; an error only shows at the end */
    method EvalSource() returns (closed: bool, res: Result)
      requires Valid()
      modifies `pos, `error, `skip, `log
      ensures Follows(Closed(text, ParseComma(text, old(pos))), res)
      ensures if closed then pos > old(pos) else error != NoError
      decreases |text| - pos, 33
    {
      hide SkipSpaces, Starts, ParseComma, Run, IsSpace, At;
      res := EvalComma();
      closed := Take(")");
      if !closed {
        error := MissingClosingParenthesis;
      }
    }

    /** The parenthesis, the variable, which is only walked over, and the semicolon of a foreach */
    method ForeachVariable() returns (found: bool, variable: nat)
      requires Valid()
      modifies `pos, `error, `skip, `log
      ensures Kept() && log == old(log)
      ensures if found then old(pos) < variable < pos else error != NoError
      ensures var s := ParseVariable(text, old(pos));
        && (error == NoError ==> s.Ok? && s.pos == pos && VariableAt(text, variable, s.expr))
        && (old(error) == NoError && error != NoError ==> s.Bad?)
      decreases |text| - pos, 33
    {
      hide SkipSpaces, Starts, ParseConditional;
      found, variable := false, 0;
      var open := Take("(");
      if !open {
        error := MissingOpeningParenthesis;
        return;
      }
      variable := pos;
      SkipVariable();
      found := Take(";");
      if !found {
        error := MissingSemicolon;
      }
    }

    /** The variable of a foreach, walked over in skip mode */
    method SkipVariable()
      requires Valid()
      modifies `pos, `error, `skip, `log
      ensures Kept() && log == old(log)
      ensures var s := ParseConditional(text, old(pos));
        && (error == NoError ==> s.Ok? && s.pos == pos) && (old(error) == NoError && error != NoError ==> s.Bad?)
      decreases |text| - pos, 32
    {
      hide ParseConditional;
      var saved := skip;
      skip := true;
      var variable := EvalConditional();
      skip := saved;
    }

    /**
     * command_evaluate; `end` is where the last statement that did not break ended, and the evaluator is
     * there unless a statement broke.
     */
    method Evaluate() returns (end: nat)
      requires Valid() && error == NoError
      modifies `pos, `error, `skip, `log
      ensures Kept() && old(pos) <= end <= |text|
      ensures var r :=
          if skip then WalkCommand(text, old(pos), old(log)) else StepCommand(env, text, old(pos), old(log), 0);
        && end == r.pos && (error != NoError <==> r.broken) && (error == NoError ==> pos == end && log == r.log)
    {
      hide ParseStatement, SkipSpaces, Step;
      var more := true;
      end := pos;
      ghost var cut: nat := 0;
      ghost var whole := if skip then WalkCommand(text, pos, log) else StepCommand(env, text, pos, log, 0);
      while more
        invariant Kept() && old(pos) <= end <= |text|
        invariant error == NoError ==> end == pos
        invariant if error == NoError && more then
            whole == if skip then WalkCommand(text, pos, log) else StepCommand(env, text, pos, log, cut)
          else end == whole.pos && (error != NoError <==> whole.broken) && (error == NoError ==> log == whole.log)
        decreases |text| - pos, more
      {
        ghost var step := Step(env, text, pos, log);
        more := EvalSingle();
        if error == NoError {
          end := pos;
        }
        if step.Stop? {
          cut := cut + step.cut;
        }
      }
    }
  }

  /** command_evaluate_to_length: how far an expression goes, found by evaluating it on no object */
  method EvaluateToLength(text: Text, env: Env) returns (length: nat, error: Error)
    requires env.root == NoAttr
    ensures var s := ParseComma(text, 0);
      if s.Ok? && Run(env, s.expr, []).Done? then error == NoError && length == s.pos
      else error != NoError && length == 0
  {
    hide ParseComma, Run;
    var ctx := new Context(text, env, false);
    var res := ctx.EvalComma();
    error := ctx.error;
    length := if error == NoError then ctx.pos else 0;
  }

  /** What a value counts as when a truth value is asked for */
  function Truthful(a: Attr): bool {
    match a
    case NoAttr => false
    case IntAttr(n) => n != 0
    case DoubleAttr(n) => n != 0
    case TextAttr(_) => true
    case ObjectAttr(o) => o != 0
    case OtherAttr => true
  }

  /** command_evaluate_to_boolean: the truth of the value that running the parsed expression gives */
  method EvaluateToBoolean(text: Text, env: Env) returns (truth: bool, error: Error)
    ensures var s := ParseComma(text, 0);
      if s.Ok? && Run(env, s.expr, []).Done? then
        var r := Run(env, s.expr, []); error == NoError && truth == Truthful(Fetched(env, r.res, r.log).0.attr)
      else error != NoError && !truth
  {
    hide ParseComma, Run;
    var ctx := new Context(text, env, false);
    var res := ctx.EvalComma();
    truth, error := false, ctx.error;
    if error == NoError {
      res := ctx.Resolve(res);
      if res.attr.NoAttr? {
        truth := false;
      } else if res.attr.IntAttr? || res.attr.DoubleAttr? {
        var n, _ := ctx.IntOrBool(false, res);
        truth := n != 0;
      } else {
        truth := !res.attr.ObjectAttr? || res.attr.obj != 0;
      }
    }
  }

  /**
   * Walking over an expression does what running it does, without touching an object: whenever a
   * run on any objects succeeds, so does the walk, it ends at the same character and it logs nothing.
   */
  method WalkAgreesWithRun(text: Text, env: Env)
      returns (run: Error, end: nat, walk: Error, walkEnd: nat, touched: nat)
    ensures run == NoError ==> walk == NoError && walkEnd == end
    ensures touched == 0
  {
    hide ParseComma, Run;
    var ctx := new Context(text, env, false);
    var res := ctx.EvalComma();
    run, end := ctx.error, ctx.pos;
    var over := new Context(text, env, true);
    res := over.EvalComma();
    walk, walkEnd, touched := over.error, over.pos, |over.log|;
  }

  /**
   * The same for a command of statements: a run that gets through a text whose braces are even, or whose
   * statements are steady, ends where the walk does.  `end` is where the run really is unless a statement broke,
   * as one does at the end of the text.
   */
  method WalkAgreesWithCommand(text: Text, env: Env) returns (end: nat, walkEnd: nat, touched: nat)
    ensures end == StepCommand(env, text, 0, [], 0).pos && walkEnd == WalkCommand(text, 0, []).pos
    ensures SkipSpaces(text, end) == |text| && (Even(text, 0, |text|) || SteadyFrom(text, 0)) ==> end == walkEnd
    ensures touched == 0
  {
    hide StepCommand, WalkCommand, SkipSpaces, Even, SteadyFrom;
    var ctx := new Context(text, env, false);
    end := ctx.Evaluate();
    var over := new Context(text, env, true);
    walkEnd := over.Evaluate();
    touched := |over.log|;
    if Even(text, 0, |text|) {
      ThroughAgrees(env, text, []);
    }
    if SteadyFrom(text, 0) {
      SteadyCommandEnds(env, text, 0, [], 0, []);
    }
  }

  ghost predicate VariableAt(t: Text, i: nat, e: Expr) {
    i <= |t| && ParseConditional(t, i).Ok? && ParseConditional(t, i).expr == e
  }

  /** The branches of `?:` in the text, and what the choice between them comes to */
  lemma {:induction false} BranchesRun(env: Env, t: Text, i: nat, c: Expr, log: Log)
    requires i <= |t|
    ensures var s, yes := ParseBranches(t, i, c), ParseLevel(LAST_LEVEL, t, i);
      if yes.Bad? || !Starts(t, SkipSpaces(t, yes.pos), ":") then s.Bad?
      else
        var no := ParseLevel(LAST_LEVEL, t, SkipSpaces(t, yes.pos) + 1);
        if no.Bad? then s.Bad?
        else
          && s == Ok(Choice(c, yes.expr, no.expr), no.pos)
          && var rc := Run(env, c, log);
             var n := if rc.Fail? then NoNumber else ToInt(env, true, rc.res, rc.log);
             Run(env, s.expr, log) ==
               if n.NoNumber? then Fail
               else if n.value != 0 then Run(env, yes.expr, n.log) else Run(env, no.expr, n.log)
  {
    hide SkipSpaces, ParseLevel, Run, ToInt, IsSpace, At;
    var s := ParseBranches(t, i, c);
    if s.Ok? {
      ChoiceRuns(env, c, s.expr.yes, s.expr.no, log);
    }
  }

  /** With a condition that fails, a choice fails. */
  lemma {:induction false} ConditionFails(env: Env, t: Text, i: nat, log: Log)
    requires i <= |t| && ParseLevel(LAST_LEVEL, t, i).Ok? && Run(env, ParseLevel(LAST_LEVEL, t, i).expr, log).Fail?
    ensures ParseConditional(t, i).Ok? ==> Run(env, ParseConditional(t, i).expr, log).Fail?
  {
    hide ParseLevel, SkipSpaces;
  }

  lemma QuoteStep(t: Text, i: nat)
    requires i < |t| && t[i] != '"'
    ensures QuoteEnd(t, i) == QuoteEnd(t, i + if t[i] == '\\' && At(t, i + 1) == '"' then 2 else 1)
  {
  }

  lemma QuoteStop(t: Text, i: nat)
    requires i <= |t| && (i < |t| ==> t[i] == '"')
    ensures QuoteEnd(t, i) == if i < |t| then Upto(i) else Nowhere
  {
  }

  lemma CopyStep(t: Text, i: nat, q: nat)
    requires i <= q < |t| && t[q] == '"' && (i < q ==> t[q - 1] != '\\') && t[i] != '"'
    ensures i < q && (t[i] == '\\' ==> i + 2 <= q)
    ensures var k := if t[i] == '\\' then i + 1 else i;
      CopyEnd(t, i, q) == CopyEnd(t, k + 1, q) && Copied(t, i, q) == [t[k]] + Copied(t, k + 1, q)
  {
  }

  lemma CopyStop(t: Text, i: nat, q: nat)
    requires i <= q < |t| && t[q] == '"' && (i < q ==> t[q - 1] != '\\') && t[i] == '"'
    ensures CopyEnd(t, i, q) == i && Copied(t, i, q) == ""
  {
  }

  lemma SpacesSkipped(t: Text, i: nat)
    requires i <= |t|
    ensures SkipSpaces(t, SkipSpaces(t, i)) == SkipSpaces(t, i)
  {
  }

  lemma InLonger(t: Text, i: nat, j: nat)
    requires i <= j < |t|
    ensures ('\\' in t[i..j + 1]) == ('\\' in t[i..j] || t[j] == '\\')
  {
    assert t[i..j + 1] == t[i..j] + [t[j]];
  }

}
