/** Tokens, expression trees and the two precedence tables: the parser's rules and the
    formatter's get_node_precedence. Both are on the scale of the parser, 1 for
    assignment to 17 for primary expressions. */
module Notation {

  datatype AssignKind =
    | Plain | AndEqual | CatEqual | DivEqual | LShiftEqual | MinusEqual
    | OrEqual | PlusEqual | RShiftEqual | TimesEqual | XorEqual | ExpEqual

  /** The words the lexer turns into binary predicates. */
  datatype Word = Cmp | Eq | Ge | Gt | HasMatch | Is | IsA | IsIn | IsMatch | IsWm | In | Le | Lt | Ne

  datatype Op =
    | Assigning(kind: AssignKind)
    | Or | And | BitOr | BitXor | BitAnd
    | Same | NotSame | Matches | MatchesNot | Spaceship | Predicate(word: Word)
    | Less | Greater | LessEqual | GreaterEqual
    | ShiftLeft | ShiftRight | Dot
    | Plus | Minus | Star | Slash | Percent | Power
    | Bang | Inc | Dec

  datatype Tok = Name(name: string) | Num(digits: string) | LParen | RParen | Sym(op: Op) | Other

  const MAX_DEPTH := 100
  const ASSIGNMENT := 1
  const UNARY := 13
  const INCDEC := 14
  const PRIMARY := 17

  /** The rules table: 0 stands for PREC_NONE. */
  function InfixPrec(t: Tok): nat {
    match t
    case LParen => 16
    case Sym(op) => OpPrec(op)
    case _ => 0
  }

  function OpPrec(op: Op): nat {
    match op
    case Assigning(_) => 1
    case Or => 2
    case And => 3
    case BitOr => 4
    case BitXor => 5
    case BitAnd => 6
    case Same | NotSame | Matches | MatchesNot | Spaceship | Predicate(_) => 7
    case Less | Greater | LessEqual | GreaterEqual => 8
    case ShiftLeft | ShiftRight => 9
    case Dot => 10
    case Plus | Minus => 11
    case Star | Slash | Percent => 12
    case Bang => 13
    case Inc | Dec => 14
    case Power => 15
  }

  /** get_node_precedence for a binary operator: it does not know `<=`, `>=` and `cmp`,
      and takes the ordering words for comparisons. */
  function PrintPrec(op: Op): nat {
    match op
    case LessEqual | GreaterEqual => PRIMARY
    case Predicate(word) =>
      (match word
       case Cmp => PRIMARY
       case Gt | Ge | Lt | Le | In | IsA => 8
       case _ => 7)
    case _ => OpPrec(op)
  }

  predicate IsBinary(op: Op) { !op.Assigning? && !op.Bang? && !op.Inc? && !op.Dec? }

  predicate IsStep(op: Op) { op.Inc? || op.Dec? }

  predicate IsSign(op: Op) { op.Plus? || op.Minus? }

  /** The tokens with the prefix rule `unary`. */
  predicate IsPrefix(op: Op) { op.Bang? || IsSign(op) || IsStep(op) }

  type InfixOp = op: Op | IsBinary(op) witness Plus
  type StepOp = op: Op | IsStep(op) witness Inc
  type PrefixOp = op: Op | IsPrefix(op) witness Bang

  datatype Expr =
    | Scalar(name: string)
    | Number(digits: string)
    | Tuple(name: string)                              // LVALUE_TUPLE around one scalar
    | Assign(kind: AssignKind, left: Expr, right: Expr)
    | Prefix(pop: PrefixOp, operand: Expr)
    | Postfix(sop: StepOp, operand: Expr)
    | Binop(bop: InfixOp, left: Expr, right: Expr)

  /** get_node_precedence. */
  function NodePrec(e: Expr): nat {
    match e
    case Assign(_, _, _) => ASSIGNMENT
    case Prefix(_, _) => UNARY
    case Postfix(_, _) => UNARY
    case Binop(op, _, _) => PrintPrec(op)
    case _ => PRIMARY
  }
}
