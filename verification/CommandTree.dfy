/** Commands as trees: what the evaluator of navit/command.c reads out of a text. */
module CommandTree {
  /** Attribute values, as far as the evaluator tells them apart; object 0 is NULL. */
  datatype Attr =
    | NoAttr | IntAttr(num: int) | DoubleAttr(whole: int) | TextAttr(text: string) | ObjectAttr(obj: nat) | OtherAttr

  datatype Expr =
    | Literal(attr: Attr)
    | Name(name: string)
    | Member(object: Expr, member: Expr)   // object.member
    | Indexed(object: Expr)                // object[]
    | Apply(function_: Expr, args: Exprs)  // function(args)
    | Prefix(op: string, operand: Expr)
    | Binary(op: string, left: Expr, right: Expr)
    | Choice(condition: Expr, yes: Expr, no: Expr)
    | Assign(target: Expr, value: Expr)
    | Comma(left: Expr, right: Expr)

  /** Arguments, the last one outermost */
  datatype Exprs = NoExprs | AndExpr(init: Exprs, last: Expr)

  datatype Stmt =
    | Plain(expr: Expr, complete: bool)  // whether a semicolon follows
    | If(condition: Expr, then_: Stmt)
    | IfElse(condition: Expr, then_: Stmt, else_: Stmt)
    | Foreach(variable: Expr, source: Expr, body: Stmt, complete: bool)  // whether the body is complete
    | Block(stmts: Stmts)

  datatype Stmts = NoStmts | AndStmt(init: Stmts, last: Stmt)
}
