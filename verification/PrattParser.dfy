/** The expression parser: precedence climbing over a token list. */
module PrattParser {
  import opened Values
  import opened Notation

  datatype Parsed = Parsed(e: Expr, rest: seq<Tok>)

  predicate AssignNext(toks: seq<Tok>) {
    toks != [] && toks[0].Sym? && toks[0].op.Assigning?
  }

  /** What grouping returns: a scalar in parentheses in front of an assignment is a
      tuple of one. */
  function Grouped(e: Expr, rest: seq<Tok>): Expr {
    if e.Scalar? && AssignNext(rest) then Tuple(e.name) else e
  }

  function NextPrec(toks: seq<Tok>): nat { if toks == [] then 0 else InfixPrec(toks[0]) }

  /** parse_precedence: what is parsed from `toks` with `depth` calls already open. A
      parse error is None; so is a call, an index, a tuple of several values and a
      negated predicate, which are not modelled. */
  function Parse(toks: seq<Tok>, level: nat, depth: nat): (r: Option<Parsed>)
    ensures r.Some? ==> |r.value.rest| < |toks|
    decreases |toks|, 1
  {
    if depth >= MAX_DEPTH || toks == [] then None
    else
      match toks[0]
      case Name(name) => Infixes(Scalar(name), toks[1..], level, depth + 1)
      case Num(digits) => Infixes(Number(digits), toks[1..], level, depth + 1)
      case LParen =>
        (match Parse(toks[1..], ASSIGNMENT, depth + 1)
         case None => None
         case Some(inner) =>
           if inner.rest == [] || inner.rest[0] != RParen then None
           else Infixes(Grouped(inner.e, inner.rest[1..]), inner.rest[1..], level, depth + 1))
      case Sym(op) =>
        if !IsPrefix(op) then None
        else
          (match Parse(toks[1..], UNARY, depth + 1)
           case None => None
           case Some(inner) => Infixes(Prefix(op, inner.e), inner.rest, level, depth + 1))
      case _ => None
  }

  /** The loop of parse_precedence_inner, `left` being what was parsed so far. */
  function Infixes(left: Expr, toks: seq<Tok>, level: nat, depth: nat): (r: Option<Parsed>)
    ensures r.Some? ==> |r.value.rest| <= |toks|
    decreases |toks|, 0
  {
    if toks == [] || level > InfixPrec(toks[0]) || InfixPrec(toks[0]) == 0 then Some(Parsed(left, toks))
    else
      match toks[0]
      case Sym(op) =>
        if op.Assigning? then
          (match Parse(toks[1..], ASSIGNMENT, depth)
           case None => None
           case Some(right) => Infixes(Assign(op.kind, left, right.e), right.rest, level, depth))
        else if IsStep(op) then Infixes(Postfix(op, left), toks[1..], level, depth)
        else if IsBinary(op) then
          (match Parse(toks[1..], OpPrec(op) + 1, depth)
           case None => None
           case Some(right) => Infixes(Binop(op, left, right.e), right.rest, level, depth))
        else None
      case _ => None
  }

  /** A whole expression up to the end of the input. */
  function ParseAll(toks: seq<Tok>): Option<Expr> {
    match Parse(toks, ASSIGNMENT, 0)
    case Some(Parsed(e, rest)) => if rest == [] then Some(e) else None
    case None => None
  }

  /** Parse, one turn: the prefix rule and what the loop continues with. */
  lemma ParseTurn(toks: seq<Tok>, level: nat, depth: nat)
    requires depth < MAX_DEPTH && toks != []
    ensures var t, rest := toks[0], toks[1..];
            Parse(toks, level, depth) ==
            if t.Name? then Infixes(Scalar(t.name), rest, level, depth + 1)
            else if t.Num? then Infixes(Number(t.digits), rest, level, depth + 1)
            else if t.LParen? then
              (var r := Parse(rest, ASSIGNMENT, depth + 1);
               if r.None? || r.value.rest == [] || r.value.rest[0] != RParen then None
               else Infixes(Grouped(r.value.e, r.value.rest[1..]), r.value.rest[1..], level, depth + 1))
            else if t.Sym? && IsPrefix(t.op) then
              (var r := Parse(rest, UNARY, depth + 1);
               if r.None? then None else Infixes(Prefix(t.op, r.value.e), r.value.rest, level, depth + 1))
            else None
  {
  }

  /** Infixes, one turn. */
  lemma InfixTurn(left: Expr, toks: seq<Tok>, level: nat, depth: nat)
    requires level >= 1 && level <= NextPrec(toks)
    ensures var t, rest := toks[0], toks[1..];
            Infixes(left, toks, level, depth) ==
            if t.Sym? && t.op.Assigning? then
              (var r := Parse(rest, ASSIGNMENT, depth);
               if r.None? then None else Infixes(Assign(t.op.kind, left, r.value.e), r.value.rest, level, depth))
            else if t.Sym? && IsStep(t.op) then Infixes(Postfix(t.op, left), rest, level, depth)
            else if t.Sym? && IsBinary(t.op) then
              (var r := Parse(rest, OpPrec(t.op) + 1, depth);
               if r.None? then None else Infixes(Binop(t.op, left, r.value.e), r.value.rest, level, depth))
            else None
  {
  }

  // ----- one turn of the parser at a time -----

  lemma AtAtom(e: Expr, rest: seq<Tok>, level: nat, depth: nat)
    requires depth < MAX_DEPTH
    ensures Parse([Name(if e.Scalar? then e.name else [])] + rest, level, depth)
            == Infixes(Scalar(if e.Scalar? then e.name else []), rest, level, depth + 1)
    ensures Parse([Num(if e.Number? then e.digits else [])] + rest, level, depth)
            == Infixes(Number(if e.Number? then e.digits else []), rest, level, depth + 1)
  {
    hide Infixes;
  }

  /** Infixes continues behind a closing parenthesis. */
  lemma AtParen(toks: seq<Tok>, e: Expr, rest: seq<Tok>, level: nat, depth: nat)
    requires depth < MAX_DEPTH && Parse(toks, ASSIGNMENT, depth + 1) == Some(Parsed(e, [RParen] + rest))
    ensures Parse([LParen] + toks, level, depth) == Infixes(Grouped(e, rest), rest, level, depth + 1)
  {
    hide Infixes;
    assert ([LParen] + toks)[1..] == toks;
    assert ([RParen] + rest)[1..] == rest;
  }

  lemma AtPrefix(op: PrefixOp, toks: seq<Tok>, e: Expr, rest: seq<Tok>, level: nat, depth: nat)
    requires depth < MAX_DEPTH && Parse(toks, UNARY, depth + 1) == Some(Parsed(e, rest))
    ensures Parse([Sym(op)] + toks, level, depth) == Infixes(Prefix(op, e), rest, level, depth + 1)
  {
    hide Infixes;
    assert ([Sym(op)] + toks)[1..] == toks;
  }

  lemma AtEnd(left: Expr, toks: seq<Tok>, level: nat, depth: nat)
    requires NextPrec(toks) < level
    ensures Infixes(left, toks, level, depth) == Some(Parsed(left, toks))
  {
    hide Parse;
  }

  lemma AtStep(left: Expr, op: StepOp, rest: seq<Tok>, level: nat, depth: nat)
    requires level <= INCDEC
    ensures Infixes(left, [Sym(op)] + rest, level, depth) == Infixes(Postfix(op, left), rest, level, depth)
  {
    hide Parse;
    assert ([Sym(op)] + rest)[1..] == rest;
  }

  lemma AtBinary(left: Expr, op: InfixOp, toks: seq<Tok>, e: Expr, rest: seq<Tok>, level: nat, depth: nat)
    requires level <= OpPrec(op) && Parse(toks, OpPrec(op) + 1, depth) == Some(Parsed(e, rest))
    ensures Infixes(left, [Sym(op)] + toks, level, depth) == Infixes(Binop(op, left, e), rest, level, depth)
  {
    hide Parse;
    assert ([Sym(op)] + toks)[1..] == toks;
  }

  lemma AtAssign(left: Expr, kind: AssignKind, toks: seq<Tok>, e: Expr, rest: seq<Tok>, level: nat, depth: nat)
    requires level <= ASSIGNMENT && Parse(toks, ASSIGNMENT, depth) == Some(Parsed(e, rest))
    ensures Infixes(left, [Sym(Assigning(kind))] + toks, level, depth) == Infixes(Assign(kind, left, e), rest, level, depth)
  {
    hide Parse;
    assert ([Sym(Assigning(kind))] + toks)[1..] == toks;
  }

  // ----- what a successful turn was -----

  lemma WasParen(toks: seq<Tok>, level: nat, depth: nat) returns (inner: Parsed)
    requires Parse(toks, level, depth).Some? && toks[0] == LParen
    ensures depth < MAX_DEPTH && Parse(toks[1..], ASSIGNMENT, depth + 1) == Some(inner)
    ensures inner.rest != [] && inner.rest[0] == RParen
    ensures Parse(toks, level, depth) == Infixes(Grouped(inner.e, inner.rest[1..]), inner.rest[1..], level, depth + 1)
  {
    hide Infixes;
    inner := Parse(toks[1..], ASSIGNMENT, depth + 1).value;
  }

  lemma WasPrefix(toks: seq<Tok>, level: nat, depth: nat) returns (inner: Parsed)
    requires Parse(toks, level, depth).Some? && toks[0].Sym?
    ensures IsPrefix(toks[0].op) && depth < MAX_DEPTH && Parse(toks[1..], UNARY, depth + 1) == Some(inner)
    ensures Parse(toks, level, depth) == Infixes(Prefix(toks[0].op, inner.e), inner.rest, level, depth + 1)
  {
    hide Infixes;
    inner := Parse(toks[1..], UNARY, depth + 1).value;
  }

  lemma WasAtom(toks: seq<Tok>, level: nat, depth: nat) returns (e: Expr)
    requires Parse(toks, level, depth).Some? && !toks[0].Sym? && !toks[0].LParen?
    ensures depth < MAX_DEPTH
    ensures (e.Scalar? && toks[0] == Name(e.name)) || (e.Number? && toks[0] == Num(e.digits))
    ensures Parse(toks, level, depth) == Infixes(e, toks[1..], level, depth + 1)
  {
    hide Infixes;
    e := if toks[0].Name? then Scalar(toks[0].name) else Number(toks[0].digits);
  }

  /** The loop took an operator with a right operand. */
  lemma WasOperator(left: Expr, toks: seq<Tok>, level: nat, depth: nat) returns (right: Parsed)
    requires level >= 1 && Infixes(left, toks, level, depth).Some? && level <= NextPrec(toks)
    requires !(toks[0].Sym? && IsStep(toks[0].op))
    ensures toks[0].Sym? && (toks[0].op.Assigning? || IsBinary(toks[0].op))
    ensures var op := toks[0].op;
            var inner := if op.Assigning? then ASSIGNMENT else OpPrec(op) + 1;
            var e := if op.Assigning? then Assign(op.kind, left, right.e) else Binop(op, left, right.e);
            && level <= OpPrec(op)
            && Parse(toks[1..], inner, depth) == Some(right)
            && Infixes(left, toks, level, depth) == Infixes(e, right.rest, level, depth)
  {
    hide Parse;
    var op := toks[0].op;
    right := Parse(toks[1..], if op.Assigning? then ASSIGNMENT else OpPrec(op) + 1, depth).value;
  }

  lemma WasStep(left: Expr, toks: seq<Tok>, level: nat, depth: nat)
    requires level >= 1 && Infixes(left, toks, level, depth).Some? && level <= NextPrec(toks)
    requires toks[0].Sym? && IsStep(toks[0].op)
    ensures level <= INCDEC
    ensures Infixes(left, toks, level, depth) == Infixes(Postfix(toks[0].op, left), toks[1..], level, depth)
  {
    hide Parse;
  }
}
