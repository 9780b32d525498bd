/** The expression formatter. */
module Printer {
  import opened Notation

  /** Characters written next to each other are read as one token when they form one:
      two signs become a step operator. */
  function Glue(op: Op, toks: seq<Tok>): (r: seq<Tok>)
    requires IsPrefix(op) && !IsStep(op)
  {
    if toks == [] || !IsSign(op) then [Sym(op)] + toks
    else if toks[0] == Sym(op) then [Sym(TwoSigns(op))] + toks[1..]
    else if toks[0] == Sym(TwoSigns(op)) then [toks[0]] + Glue(op, toks[1..])
    else [Sym(op)] + toks
  }

  function TwoSigns(op: Op): Op { if op.Plus? then Inc else Dec }

  function InParens(toks: seq<Tok>): seq<Tok> { [LParen] + toks + [RParen] }

  /** The tokens of the text format_node writes for an expression. */
  function Format(e: Expr): seq<Tok>
    decreases e, 0
  {
    match e
    case Scalar(name) => [Name(name)]
    case Number(digits) => [Num(digits)]
    case Tuple(name) => InParens([Name(name)])
    case Assign(kind, left, right) => Format(left) + [Sym(Assigning(kind))] + Format(right)
    case Binop(op, left, right) =>
      Wrapped(left, NodePrec(left) < PrintPrec(op)) + [Sym(op)] + Wrapped(right, NodePrec(right) <= PrintPrec(op))
    case Prefix(op, operand) =>
      // an operator of two characters is written behind its operand
      if IsStep(op) then Wrapped(operand, NodePrec(operand) < UNARY) + [Sym(op)]
      else Glue(op, Wrapped(operand, NodePrec(operand) < UNARY))
    case Postfix(op, operand) => Wrapped(operand, NodePrec(operand) < UNARY) + [Sym(op)]
  }

  function Wrapped(e: Expr, parens: bool): seq<Tok>
    decreases e, 1
  {
    if parens then InParens(Format(e)) else Format(e)
  }
}
