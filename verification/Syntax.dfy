/** The syntax trees the compiler walks: expressions and the statements built from
    braced blocks. */
module Syntax {
  import opened Values

  /** Operators with a compound assignment token (`+=`, `.=`, `**=` and so on). */
  predicate HasCompoundForm(op: BinaryOp) {
    match op
    case Add | Subtract | Multiply | Divide | Power | Concat => true
    case BitAnd | BitOr | BitXor | ShiftLeft | ShiftRight => true
    case _ => false
  }

  type CompoundOp = op: BinaryOp | HasCompoundForm(op) witness Add

  /** Constants a literal can denote. Number tokens carry no sign, so the double
      negative zero is never one of them. */
  predicate IsLiteral(v: Value) {
    match v
    case Int(_) | Long(_) | Text(_) => true
    case Double(bits) => bits != TWO_63
    case _ => false
  }

  type LiteralValue = v: Value | IsLiteral(v) witness Int(0)

  /** Variable names carry their sigil; call targets carry none. */
  datatype Expr =
    | Literal(v: LiteralValue)
    | NullLiteral
    | BoolLiteral(b: bool)
    | Variable(name: string)
    | Binop(op: BinaryOp, left: Expr, right: Expr)
    | Bridge(name: string, negate: bool, left: Expr, right: Expr)
    | And(left: Expr, right: Expr)
    | Or(left: Expr, right: Expr)
    | Not(operand: Expr)
    | Minus(operand: Expr)
    | Iff(args: seq<Expr>)
    | Assign(name: string, right: Expr)
    | OpAssign(name: string, cop: CompoundOp, right: Expr)
    | Bump(name: string, increment: bool)
    | Call(name: string, args: seq<Expr>)

  datatype Stmt =
    | ExprStmt(e: Expr)
    | Empty
    | If(cond: Expr, thenBody: seq<Stmt>, elseBody: seq<Stmt>)
    | While(cond: Expr, body: seq<Stmt>)
    | For(init: seq<Expr>, cond: Expr, increment: seq<Expr>, body: seq<Stmt>)
    | Forever(init: seq<Expr>, increment: seq<Expr>, body: seq<Stmt>)
    | Foreach(index: Option<string>, value: string, generator: Expr, body: seq<Stmt>)

  /** assert_condition_is_predicate: an ungrouped arithmetic operator is not a
      predicate, and `iff` takes it as false without evaluating it. */
  predicate IsPredicateShape(e: Expr) {
    e.Binop? ==>
      match e.op
      case Equal | NotEqual | Less | Greater | LessEqual | GreaterEqual => true
      case _ => false
  }
}
