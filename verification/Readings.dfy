/** Readings: trees that keep their parentheses. The parser finds a reading of its input,
    and there is only one with a given expression. */
module Readings {
  import opened Values
  import opened Notation
  import opened PrattParser

  datatype Tree =
    | Leaf(e: Expr)                      // a scalar or a number
    | Paren(inner: Tree)
    | One(inner: Tree)                   // a scalar in parentheses, read as a tuple
    | Pre(pop: PrefixOp, inner: Tree)
    | Post(sop: StepOp, inner: Tree)
    | Bin(bop: InfixOp, left: Tree, right: Tree)
    | Asg(kind: AssignKind, left: Tree, right: Tree)

  function Strip(c: Tree): Expr {
    match c
    case Leaf(e) => e
    case Paren(inner) => Strip(inner)
    case One(inner) => if Strip(inner).Scalar? then Tuple(Strip(inner).name) else Strip(inner)
    case Pre(op, inner) => Prefix(op, Strip(inner))
    case Post(op, inner) => Postfix(op, Strip(inner))
    case Bin(op, left, right) => Binop(op, Strip(left), Strip(right))
    case Asg(kind, left, right) => Assign(kind, Strip(left), Strip(right))
  }

  function LeafTok(e: Expr): Tok {
    match e
    case Scalar(name) => Name(name)
    case Number(digits) => Num(digits)
    case _ => Other
  }

  function Flat(c: Tree): (r: seq<Tok>)
    ensures r != []
  {
    match c
    case Leaf(e) => [LeafTok(e)]
    case Paren(inner) => [LParen] + Flat(inner) + [RParen]
    case One(inner) => [LParen] + Flat(inner) + [RParen]
    case Pre(op, inner) => [Sym(op)] + Flat(inner)
    case Post(op, inner) => Flat(inner) + [Sym(op)]
    case Bin(op, left, right) => Flat(left) + [Sym(op)] + Flat(right)
    case Asg(kind, left, right) => Flat(left) + [Sym(Assigning(kind))] + Flat(right)
  }

  /** In front of `next` the tree is complete: no operand on its right edge takes the
      next operator in, and a scalar in parentheses at its end is a tuple exactly when
      an assignment follows. */
  predicate Ends(c: Tree, next: seq<Tok>) {
    match c
    case Leaf(_) => true
    case Paren(inner) => !(Strip(inner).Scalar? && AssignNext(next))
    case One(_) => AssignNext(next)
    case Pre(_, inner) => NextPrec(next) < UNARY && Ends(inner, next)
    case Post(_, _) => true
    case Bin(op, _, right) => NextPrec(next) < OpPrec(op) + 1 && Ends(right, next)
    case Asg(_, _, right) => NextPrec(next) < ASSIGNMENT && Ends(right, next)
  }

  /** The tree is one the parser builds at precedence `level`. */
  predicate Fits(c: Tree, level: nat) {
    match c
    case Leaf(e) => e.Scalar? || e.Number?
    case Paren(inner) => Fits(inner, ASSIGNMENT) && Ends(inner, [RParen])
    case One(inner) => Strip(inner).Scalar? && Fits(inner, ASSIGNMENT) && Ends(inner, [RParen])
    case Pre(_, inner) => Fits(inner, UNARY)
    case Post(op, inner) => level <= INCDEC && Fits(inner, level) && Ends(inner, [Sym(op)])
    case Bin(op, left, right) =>
      level <= OpPrec(op) && Fits(left, level) && Ends(left, [Sym(op)]) && Fits(right, OpPrec(op) + 1)
    case Asg(kind, left, right) =>
      level <= ASSIGNMENT && Fits(left, level) && Ends(left, [Sym(Assigning(kind))]) && Fits(right, ASSIGNMENT)
  }

  function Max(a: nat, b: nat): nat { if a < b then b else a }

  /** How many calls of parse_precedence are open at once. */
  function Need(c: Tree): (n: nat)
    ensures n > 0
  {
    match c
    case Leaf(_) => 1
    case Paren(inner) => 1 + Need(inner)
    case One(inner) => 1 + Need(inner)
    case Pre(_, inner) => 1 + Need(inner)
    case Post(_, inner) => Need(inner)
    case Bin(_, left, right) => Max(Need(left), 1 + Need(right))
    case Asg(_, left, right) => Max(Need(left), 1 + Need(right))
  }

  // ----- the parser finds every reading -----

  lemma EndsOnFirst(c: Tree, next: seq<Tok>, other: seq<Tok>)
    requires next != [] && other != [] && next[0] == other[0] && Ends(c, next)
    ensures Ends(c, other)
  {
  }

  lemma Regroup(a: seq<Tok>, t: Tok, b: seq<Tok>, rest: seq<Tok>)
    ensures a + [t] + b + rest == a + ([t] + (b + rest))
    ensures ([t] + (b + rest))[0] == t && ([t] + (b + rest))[1..] == b + rest
  {
  }

  lemma JoinBinary(l: seq<Tok>, op: InfixOp, r: seq<Tok>, rest: seq<Tok>, left: Expr, right: Expr, level: nat, depth: nat)
    requires level <= OpPrec(op) && NextPrec(rest) < OpPrec(op) + 1
    requires var after := [Sym(op)] + (r + rest); Parse(l + after, level, depth) == Infixes(left, after, level, depth + 1)
    requires Parse(r + rest, OpPrec(op) + 1, depth + 1) == Infixes(right, rest, OpPrec(op) + 1, depth + 2)
    ensures Parse(l + [Sym(op)] + r + rest, level, depth) == Infixes(Binop(op, left, right), rest, level, depth + 1)
  {
    hide Parse, Infixes, OpPrec;
    Regroup(l, Sym(op), r, rest);
    AtEnd(right, rest, OpPrec(op) + 1, depth + 2);
    AtBinary(left, op, r + rest, right, rest, level, depth + 1);
  }

  lemma JoinAssign(l: seq<Tok>, kind: AssignKind, r: seq<Tok>, rest: seq<Tok>, left: Expr, right: Expr, level: nat, depth: nat)
    requires level <= ASSIGNMENT && NextPrec(rest) < ASSIGNMENT
    requires var after := [Sym(Assigning(kind))] + (r + rest); Parse(l + after, level, depth) == Infixes(left, after, level, depth + 1)
    requires Parse(r + rest, ASSIGNMENT, depth + 1) == Infixes(right, rest, ASSIGNMENT, depth + 2)
    ensures Parse(l + [Sym(Assigning(kind))] + r + rest, level, depth) == Infixes(Assign(kind, left, right), rest, level, depth + 1)
  {
    hide Parse, Infixes;
    Regroup(l, Sym(Assigning(kind)), r, rest);
    AtEnd(right, rest, ASSIGNMENT, depth + 2);
    AtAssign(left, kind, r + rest, right, rest, level, depth + 1);
  }

  lemma JoinParen(inner: seq<Tok>, rest: seq<Tok>, e: Expr, level: nat, depth: nat)
    requires depth < MAX_DEPTH
    requires var after := [RParen] + rest; Parse(inner + after, ASSIGNMENT, depth + 1) == Infixes(e, after, ASSIGNMENT, depth + 2)
    ensures Parse([LParen] + inner + [RParen] + rest, level, depth) == Infixes(Grouped(e, rest), rest, level, depth + 1)
  {
    hide Parse, Infixes;
    var after := [RParen] + rest;
    AtEnd(e, after, ASSIGNMENT, depth + 2);
    AtParen(inner + after, e, rest, level, depth);
    assert [LParen] + inner + [RParen] + rest == [LParen] + (inner + after);
  }

  lemma JoinStep(inner: seq<Tok>, op: StepOp, rest: seq<Tok>, e: Expr, level: nat, depth: nat)
    requires level <= INCDEC
    requires var after := [Sym(op)] + rest; Parse(inner + after, level, depth) == Infixes(e, after, level, depth + 1)
    ensures Parse(inner + [Sym(op)] + rest, level, depth) == Infixes(Postfix(op, e), rest, level, depth + 1)
  {
    hide Parse, Infixes;
    AtStep(e, op, rest, level, depth + 1);
    assert inner + [Sym(op)] + rest == inner + ([Sym(op)] + rest);
  }

  /** Parsing the tokens of a reading goes on behind it with its expression. */
  lemma {:induction false} ParserFinds(c: Tree, rest: seq<Tok>, level: nat, depth: nat)
    requires Fits(c, level) && Ends(c, rest) && Need(c) + depth <= MAX_DEPTH
    ensures Parse(Flat(c) + rest, level, depth) == Infixes(Strip(c), rest, level, depth + 1)
    decreases c
  {
    hide Parse, Infixes, OpPrec;
    match c
    case Leaf(e) => AtAtom(e, rest, level, depth);
    case One(inner) =>
      EndsOnFirst(inner, [RParen], [RParen] + rest);
      ParserFinds(inner, [RParen] + rest, ASSIGNMENT, depth + 1);
      JoinParen(Flat(inner), rest, Strip(inner), level, depth);
    case Paren(inner) =>
      EndsOnFirst(inner, [RParen], [RParen] + rest);
      ParserFinds(inner, [RParen] + rest, ASSIGNMENT, depth + 1);
      JoinParen(Flat(inner), rest, Strip(inner), level, depth);
    case Pre(op, inner) =>
      ParserFinds(inner, rest, UNARY, depth + 1);
      AtEnd(Strip(inner), rest, UNARY, depth + 2);
      AtPrefix(op, Flat(inner) + rest, Strip(inner), rest, level, depth);
      assert Flat(c) + rest == [Sym(op)] + (Flat(inner) + rest);
    case Post(op, inner) =>
      EndsOnFirst(inner, [Sym(op)], [Sym(op)] + rest);
      ParserFinds(inner, [Sym(op)] + rest, level, depth);
      JoinStep(Flat(inner), op, rest, Strip(inner), level, depth);
    case Bin(op, left, right) =>
      var after := [Sym(op)] + (Flat(right) + rest);
      EndsOnFirst(left, [Sym(op)], after);
      ParserFinds(left, after, level, depth);
      ParserFinds(right, rest, OpPrec(op) + 1, depth + 1);
      JoinBinary(Flat(left), op, Flat(right), rest, Strip(left), Strip(right), level, depth);
    case Asg(kind, left, right) =>
      var after := [Sym(Assigning(kind))] + (Flat(right) + rest);
      EndsOnFirst(left, [Sym(Assigning(kind))], after);
      ParserFinds(left, after, level, depth);
      ParserFinds(right, rest, ASSIGNMENT, depth + 1);
      JoinAssign(Flat(left), kind, Flat(right), rest, Strip(left), Strip(right), level, depth);
  }

  // ----- what the parser returns has a reading -----

  /** `c` is a reading of what was consumed between `toks` and `rest`. */
  ghost predicate Reads(c: Tree, toks: seq<Tok>, p: Parsed, level: nat, depth: nat) {
    && toks == Flat(c) + p.rest && Strip(c) == p.e && Fits(c, level) && Ends(c, p.rest)
    && NextPrec(p.rest) < level && Need(c) + depth <= MAX_DEPTH
  }

  lemma GroupReads(i: Tree, toks: seq<Tok>, inner: Parsed, level: nat, depth: nat) returns (g: Tree)
    requires toks != [] && toks[0] == LParen && inner.rest != [] && inner.rest[0] == RParen
    requires Reads(i, toks[1..], inner, ASSIGNMENT, depth + 1)
    ensures var rest := inner.rest[1..];
            && Flat(g) + rest == toks && Strip(g) == Grouped(inner.e, rest)
            && Fits(g, level) && Ends(g, rest) && Need(g) + depth <= MAX_DEPTH
  {
    var rest := inner.rest[1..];
    EndsOnFirst(i, inner.rest, [RParen]);
    g := if inner.e.Scalar? && AssignNext(rest) then One(i) else Paren(i);
    assert toks == [LParen] + toks[1..] && inner.rest == [RParen] + rest;
    assert Flat(g) + rest == [LParen] + (Flat(i) + ([RParen] + rest));
  }

  lemma PrefixReads(i: Tree, toks: seq<Tok>, inner: Parsed, level: nat, depth: nat)
    requires toks != [] && toks[0].Sym? && IsPrefix(toks[0].op) && Reads(i, toks[1..], inner, UNARY, depth + 1)
    ensures var g := Pre(toks[0].op, i);
            && Flat(g) + inner.rest == toks && Strip(g) == Prefix(toks[0].op, inner.e)
            && Fits(g, level) && Ends(g, inner.rest) && Need(g) + depth <= MAX_DEPTH
  {
    assert toks == [toks[0]] + toks[1..];
    assert Flat(Pre(toks[0].op, i)) + inner.rest == [toks[0]] + (Flat(i) + inner.rest);
  }

  lemma OperatorReads(c0: Tree, r: Tree, toks: seq<Tok>, right: Parsed, level: nat, depth: nat) returns (g: Tree)
    requires depth >= 1 && toks != [] && toks[0].Sym? && (toks[0].op.Assigning? || IsBinary(toks[0].op))
    requires level <= OpPrec(toks[0].op) && Fits(c0, level) && Ends(c0, toks) && Need(c0) + depth - 1 <= MAX_DEPTH
    requires Reads(r, toks[1..], right, if toks[0].op.Assigning? then ASSIGNMENT else OpPrec(toks[0].op) + 1, depth)
    ensures var op := toks[0].op;
            && Flat(g) + right.rest == Flat(c0) + toks
            && Strip(g) == (if op.Assigning? then Assign(op.kind, Strip(c0), right.e) else Binop(op, Strip(c0), right.e))
            && Fits(g, level) && Ends(g, right.rest) && Need(g) + depth - 1 <= MAX_DEPTH
  {
    var op := toks[0].op;
    EndsOnFirst(c0, toks, [Sym(op)]);
    g := if op.Assigning? then Asg(op.kind, c0, r) else Bin(op, c0, r);
    assert toks == [Sym(op)] + toks[1..];
    Regroup(Flat(c0), Sym(op), Flat(r), right.rest);
  }

  lemma StepReads(c0: Tree, toks: seq<Tok>, level: nat, depth: nat)
    requires depth >= 1 && toks != [] && toks[0].Sym? && IsStep(toks[0].op)
    requires level <= INCDEC && Fits(c0, level) && Ends(c0, toks) && Need(c0) + depth - 1 <= MAX_DEPTH
    ensures var g := Post(toks[0].op, c0);
            && Flat(g) + toks[1..] == Flat(c0) + toks && Strip(g) == Postfix(toks[0].op, Strip(c0))
            && Fits(g, level) && Ends(g, toks[1..]) && Need(g) + depth - 1 <= MAX_DEPTH
  {
    EndsOnFirst(c0, toks, [Sym(toks[0].op)]);
    assert toks == [toks[0]] + toks[1..];
  }

  lemma AtomReads(e: Expr, toks: seq<Tok>, level: nat, depth: nat)
    requires toks != [] && ((e.Scalar? && toks[0] == Name(e.name)) || (e.Number? && toks[0] == Num(e.digits)))
    requires depth < MAX_DEPTH
    ensures var g := Leaf(e);
            && Flat(g) + toks[1..] == toks && Strip(g) == e
            && Fits(g, level) && Ends(g, toks[1..]) && Need(g) + depth <= MAX_DEPTH
  {
  }

  lemma SomeInput(toks: seq<Tok>, level: nat, depth: nat)
    requires Parse(toks, level, depth).Some?
    ensures toks != []
  {
  }

  lemma {:induction false} ParserReads(toks: seq<Tok>, level: nat, depth: nat) returns (c: Tree)
    requires level >= 1 && Parse(toks, level, depth).Some?
    ensures Reads(c, toks, Parse(toks, level, depth).value, level, depth)
    decreases |toks|, 1
  {
    hide Parse, Infixes, Flat, Fits, Ends, Need, Strip;
    SomeInput(toks, level, depth);
    if toks[0].LParen? {
      var inner := WasParen(toks, level, depth);
      var i := ParserReads(toks[1..], ASSIGNMENT, depth + 1);
      var g := GroupReads(i, toks, inner, level, depth);
      c := InfixesRead(g, inner.rest[1..], level, depth + 1);
    } else if toks[0].Sym? {
      var inner := WasPrefix(toks, level, depth);
      var i := ParserReads(toks[1..], UNARY, depth + 1);
      PrefixReads(i, toks, inner, level, depth);
      c := InfixesRead(Pre(toks[0].op, i), inner.rest, level, depth + 1);
    } else {
      var e := WasAtom(toks, level, depth);
      AtomReads(e, toks, level, depth);
      c := InfixesRead(Leaf(e), toks[1..], level, depth + 1);
    }
  }

  lemma {:induction false} InfixesRead(c0: Tree, toks: seq<Tok>, level: nat, depth: nat) returns (c: Tree)
    requires level >= 1 && depth >= 1 && Infixes(Strip(c0), toks, level, depth).Some?
    requires Fits(c0, level) && Ends(c0, toks) && Need(c0) + depth - 1 <= MAX_DEPTH
    ensures Reads(c, Flat(c0) + toks, Infixes(Strip(c0), toks, level, depth).value, level, depth - 1)
    decreases |toks|, 0
  {
    hide Parse, Infixes, Flat, Fits, Ends, Need, Strip, OpPrec;
    if NextPrec(toks) < level {
      AtEnd(Strip(c0), toks, level, depth);
      c := c0;
    } else if toks[0].Sym? && IsStep(toks[0].op) {
      WasStep(Strip(c0), toks, level, depth);
      StepReads(c0, toks, level, depth);
      c := InfixesRead(Post(toks[0].op, c0), toks[1..], level, depth);
    } else {
      var right := WasOperator(Strip(c0), toks, level, depth);
      var r := ParserReads(toks[1..], if toks[0].op.Assigning? then ASSIGNMENT else OpPrec(toks[0].op) + 1, depth);
      var g := OperatorReads(c0, r, toks, right, level, depth);
      c := InfixesRead(g, right.rest, level, depth);
    }
  }
}
