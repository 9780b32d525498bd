/** Printing an expression and parsing the text: when the expression comes back. */
module RoundTrip {
  import opened Values
  import opened Notation
  import opened PrattParser
  import opened Printer
  import opened Readings
  import opened Unambiguous
  import opened FormatNode
  import opened ParserMachine

  /** The reading the formatter has in mind. */
  function Printed(e: Expr): Tree
    decreases e, 0
  {
    match e
    case Scalar(_) => Leaf(e)
    case Number(_) => Leaf(e)
    case Tuple(name) => One(Leaf(Scalar(name)))
    case Assign(kind, left, right) => Asg(kind, Printed(left), Printed(right))
    case Binop(op, left, right) =>
      Bin(op, Wrap(left, NodePrec(left) < PrintPrec(op)), Wrap(right, NodePrec(right) <= PrintPrec(op)))
    case Prefix(op, operand) =>
      if IsStep(op) then Post(op, Wrap(operand, NodePrec(operand) < UNARY))
      else Pre(op, Wrap(operand, NodePrec(operand) < UNARY))
    case Postfix(op, operand) => Post(op, Wrap(operand, NodePrec(operand) < UNARY))
  }

  /** A second pair of parentheses around a tuple is the inner one. */
  function Wrap(e: Expr, parens: bool): Tree
    decreases e, 1
  {
    if !parens then Printed(e)
    else if e.Tuple? then One(Paren(Leaf(Scalar(e.name))))
    else Paren(Printed(e))
  }

  /** No step operator is used as a prefix: it would be printed as a postfix. */
  predicate NoPrefixSteps(e: Expr) {
    match e
    case Assign(_, left, right) => NoPrefixSteps(left) && NoPrefixSteps(right)
    case Binop(_, left, right) => NoPrefixSteps(left) && NoPrefixSteps(right)
    case Prefix(op, operand) => !IsStep(op) && NoPrefixSteps(operand)
    case Postfix(_, operand) => NoPrefixSteps(operand)
    case _ => true
  }

  /** No sign is printed directly in front of the same sign. */
  predicate SignsApart(e: Expr) {
    match e
    case Assign(_, left, right) => SignsApart(left) && SignsApart(right)
    case Binop(_, left, right) => SignsApart(left) && SignsApart(right)
    case Prefix(op, operand) =>
      SignsApart(operand) &&
      (IsSign(op) ==> Flat(Wrap(operand, NodePrec(operand) < UNARY))[0] != Sym(op))
    case Postfix(_, operand) => SignsApart(operand)
    case _ => true
  }

  // ----- the printed reading -----

  lemma {:induction false} PrintedProper(e: Expr)
    ensures Proper(Printed(e)) && (Printed(e).One? ==> e.Tuple?)
  {
    match e
    case Scalar(_) =>
    case Number(_) =>
    case Tuple(_) =>
    case Assign(_, left, right) => PrintedProper(left); PrintedProper(right);
    case Binop(_, left, right) => PrintedProper(left); PrintedProper(right);
    case Prefix(_, operand) => PrintedProper(operand);
    case Postfix(_, operand) => PrintedProper(operand);
  }

  lemma WrapStrip(e: Expr)
    ensures Strip(Wrap(e, true)) == Strip(Printed(e)) == Strip(Wrap(e, false))
  {
  }

  lemma {:induction false} PrintedStrip(e: Expr)
    requires NoPrefixSteps(e)
    ensures Strip(Printed(e)) == e
  {
    hide NodePrec, PrintPrec, Wrap;
    match e
    case Scalar(_) =>
    case Number(_) =>
    case Tuple(_) =>
    case Assign(_, left, right) => PrintedStrip(left); PrintedStrip(right);
    case Binop(_, left, right) =>
      PrintedStrip(left);
      PrintedStrip(right);
      WrapStrip(left);
      WrapStrip(right);
    case Prefix(_, operand) => PrintedStrip(operand); WrapStrip(operand);
    case Postfix(_, operand) => PrintedStrip(operand); WrapStrip(operand);
  }

  /** No printed reading begins with a step operator. */
  lemma {:induction false} NoStepFirst(e: Expr)
    ensures Flat(Printed(e))[0].Sym? ==> !IsStep(Flat(Printed(e))[0].op)
  {
    match e
    case Scalar(_) =>
    case Number(_) =>
    case Tuple(_) =>
    case Assign(_, left, _) => NoStepFirst(left);
    case Binop(_, left, _) => NoStepFirst(left);
    case Prefix(_, operand) => NoStepFirst(operand);
    case Postfix(_, operand) => NoStepFirst(operand);
  }

  lemma WrappedFlat(e: Expr, parens: bool)
    requires Format(e) == Flat(Printed(e))
    ensures Wrapped(e, parens) == Flat(Wrap(e, parens))
  {
    if parens && e.Tuple? {
      assert Flat(Paren(Leaf(Scalar(e.name)))) == [LParen, Name(e.name), RParen];
    }
  }

  /** When no two signs run together, the formatter writes the tokens of that reading. */
  lemma {:induction false} FormatIsFlat(e: Expr)
    requires SignsApart(e)
    ensures Format(e) == Flat(Printed(e))
  {
    hide NodePrec, PrintPrec;
    match e
    case Scalar(_) =>
    case Number(_) =>
    case Tuple(_) =>
    case Assign(_, left, right) => FormatIsFlat(left); FormatIsFlat(right);
    case Binop(op, left, right) =>
      FormatIsFlat(left);
      FormatIsFlat(right);
      WrappedFlat(left, NodePrec(left) < PrintPrec(op));
      WrappedFlat(right, NodePrec(right) <= PrintPrec(op));
    case Prefix(op, operand) =>
      FormatIsFlat(operand);
      WrappedFlat(operand, NodePrec(operand) < UNARY);
      NoStepFirst(operand);
    case Postfix(_, operand) =>
      FormatIsFlat(operand);
      WrappedFlat(operand, NodePrec(operand) < UNARY);
  }

  // ----- tokens lost to glued signs -----

  lemma {:induction false} GlueCore(op: Op, toks: seq<Tok>)
    requires IsPrefix(op) && !IsStep(op)
    ensures Core(Glue(op, toks)) <= 1 + Core(toks)
    ensures IsSign(op) && toks != [] && toks[0] == Sym(op) ==> Core(Glue(op, toks)) == Core(toks)
  {
    assert ([Sym(op)] + toks)[1..] == toks;
    if toks != [] && IsSign(op) {
      var d := Sym(TwoSigns(op));
      if toks[0] == Sym(op) {
        assert ([d] + toks[1..])[1..] == toks[1..];
      } else if toks[0] == d {
        GlueCore(op, toks[1..]);
        assert ([d] + Glue(op, toks[1..]))[1..] == Glue(op, toks[1..]);
      }
    }
  }

  lemma WrappedCore(e: Expr, parens: bool)
    ensures Core(Wrapped(e, parens)) == Core(Format(e))
  {
    InParensCounts(Format(e));
  }

  /** The text has as many operators and atoms as the expression only when no two signs
      ran together. */
  lemma {:induction false} FormatCore(e: Expr)
    ensures Core(Format(e)) <= Count(e)
    ensures Core(Format(e)) == Count(e) ==> SignsApart(e)
  {
    hide NodePrec, PrintPrec, Core, Glue;
    match e
    case Scalar(name) => OneToken(Name(name));
    case Number(digits) => OneToken(Num(digits));
    case Tuple(name) => OneToken(Name(name)); InParensCounts([Name(name)]);
    case Assign(kind, left, right) =>
      FormatCore(left);
      FormatCore(right);
      Around(Format(left), Sym(Assigning(kind)), Format(right));
    case Binop(op, left, right) =>
      FormatCore(left);
      FormatCore(right);
      var l, r := NodePrec(left) < PrintPrec(op), NodePrec(right) <= PrintPrec(op);
      WrappedCore(left, l);
      WrappedCore(right, r);
      Around(Wrapped(left, l), Sym(op), Wrapped(right, r));
    case Prefix(op, operand) =>
      FormatCore(operand);
      PrefixCore(op, operand, NodePrec(operand) < UNARY);
    case Postfix(op, operand) =>
      FormatCore(operand);
      StepCore(op, operand, NodePrec(operand) < UNARY);
  }

  lemma StepCore(op: StepOp, operand: Expr, parens: bool)
    ensures Core(Wrapped(operand, parens) + [Sym(op)]) == Core(Format(operand)) + 1
  {
    WrappedCore(operand, parens);
    CoreSum(Wrapped(operand, parens), [Sym(op)]);
    OneToken(Sym(op));
  }

  lemma PrefixCore(op: PrefixOp, operand: Expr, parens: bool)
    ensures IsStep(op) ==> Core(Wrapped(operand, parens) + [Sym(op)]) == Core(Format(operand)) + 1
    ensures !IsStep(op) ==> Core(Glue(op, Wrapped(operand, parens))) <= Core(Format(operand)) + 1
    ensures IsSign(op) && SignsApart(operand) && Core(Glue(op, Wrapped(operand, parens))) == Core(Format(operand)) + 1
            ==> Flat(Wrap(operand, parens))[0] != Sym(op)
  {
    WrappedCore(operand, parens);
    if IsStep(op) {
      StepCore(op, operand, parens);
    } else {
      GlueCore(op, Wrapped(operand, parens));
      if SignsApart(operand) {
        FormatIsFlat(operand);
        WrappedFlat(operand, parens);
      }
    }
  }

  // ----- step operators in prefix position -----

  function PrefixSteps(e: Expr): nat {
    match e
    case Assign(_, left, right) => PrefixSteps(left) + PrefixSteps(right)
    case Binop(_, left, right) => PrefixSteps(left) + PrefixSteps(right)
    case Prefix(op, operand) => (if IsStep(op) then 1 else 0) + PrefixSteps(operand)
    case Postfix(_, operand) => PrefixSteps(operand)
    case _ => 0
  }

  /** Step operators that do not stand behind an operand. */
  function StepsIn(toks: seq<Tok>, operand: bool): nat {
    if toks == [] then 0
    else
      match toks[0]
      case Sym(op) =>
        if IsStep(op) then (if operand then 0 else 1) + StepsIn(toks[1..], operand) else StepsIn(toks[1..], false)
      case LParen => StepsIn(toks[1..], false)
      case _ => StepsIn(toks[1..], true)
  }

  lemma StepsStart(t: Tok, s: seq<Tok>, operand: bool)
    ensures StepsIn([t] + s, operand) ==
            (if t.Sym? && IsStep(t.op) then (if operand then 0 else 1) + StepsIn(s, operand)
             else StepsIn(s, !t.Sym? && !t.LParen?))
  {
    assert ([t] + s)[1..] == s;
  }

  lemma ParenSteps(a: seq<Tok>, s: seq<Tok>)
    ensures StepsIn([LParen] + a + [RParen] + s, false) == StepsIn(a + ([RParen] + s), false)
    ensures StepsIn([RParen] + s, true) == StepsIn(s, true)
  {
    StepsStart(LParen, a + ([RParen] + s), false);
    StepsStart(RParen, s, true);
    assert [LParen] + a + [RParen] + s == [LParen] + (a + ([RParen] + s));
  }

  lemma {:induction false} TreeSteps(c: Tree, s: seq<Tok>)
    requires Proper(c)
    ensures StepsIn(Flat(c) + s, false) == PrefixSteps(Strip(c)) + StepsIn(s, true)
  {
    hide StepsIn;
    match c
    case Leaf(e) => StepsStart(LeafTok(e), s, false);
    case Paren(inner) => TreeSteps(inner, [RParen] + s); ParenSteps(Flat(inner), s);
    case One(inner) => TreeSteps(inner, [RParen] + s); ParenSteps(Flat(inner), s);
    case Pre(op, inner) =>
      TreeSteps(inner, s);
      StepsStart(Sym(op), Flat(inner) + s, false);
      assert Flat(c) + s == [Sym(op)] + (Flat(inner) + s);
    case Post(op, inner) =>
      TreeSteps(inner, [Sym(op)] + s);
      StepsStart(Sym(op), s, true);
      assert Flat(c) + s == Flat(inner) + ([Sym(op)] + s);
    case Bin(op, left, right) =>
      TreeSteps(right, s);
      TreeSteps(left, [Sym(op)] + (Flat(right) + s));
      StepsStart(Sym(op), Flat(right) + s, true);
      Regroup(Flat(left), Sym(op), Flat(right), s);
    case Asg(kind, left, right) =>
      TreeSteps(right, s);
      TreeSteps(left, [Sym(Assigning(kind))] + (Flat(right) + s));
      StepsStart(Sym(Assigning(kind)), Flat(right) + s, true);
      Regroup(Flat(left), Sym(Assigning(kind)), Flat(right), s);
  }

  lemma {:induction false} StepsOfPrinted(e: Expr)
    ensures PrefixSteps(Strip(Printed(e))) == 0
    ensures PrefixSteps(e) == 0 ==> NoPrefixSteps(e)
  {
    hide NodePrec, PrintPrec, Wrap;
    match e
    case Scalar(_) =>
    case Number(_) =>
    case Tuple(_) =>
    case Assign(_, left, right) => StepsOfPrinted(left); StepsOfPrinted(right);
    case Binop(_, left, right) =>
      StepsOfPrinted(left);
      StepsOfPrinted(right);
      WrapStrip(left);
      WrapStrip(right);
    case Prefix(_, operand) => StepsOfPrinted(operand); WrapStrip(operand);
    case Postfix(_, operand) => StepsOfPrinted(operand); WrapStrip(operand);
  }

  // ----- the round trip -----

  /** Every operand printed without parentheses is one the parser takes in without, the
      text keeps signs apart and needs no deeper recursion than the parser allows. */
  predicate Faithful(e: Expr) {
    && NoPrefixSteps(e) && SignsApart(e)
    && Fits(Printed(e), ASSIGNMENT) && Ends(Printed(e), [])
    && Need(Printed(e)) <= MAX_DEPTH
  }

  /** Printing and parsing gives the expression back exactly when it is faithful. */
  lemma PrintParse(e: Expr)
    ensures ParseAll(Format(e)) == Some(e) <==> Faithful(e)
  {
    if Faithful(e) { ComesBack(e); }
    if ParseAll(Format(e)) == Some(e) { CameBack(e); }
  }

  lemma ComesBack(e: Expr)
    requires Faithful(e)
    ensures ParseAll(Format(e)) == Some(e)
  {
    hide Parse, Infixes, Fits, Ends, Need, NoPrefixSteps, SignsApart, Format, Printed, Flat, Strip;
    FormatIsFlat(e);
    PrintedStrip(e);
    var c := Printed(e);
    assert Flat(c) + [] == Flat(c);
    ParserFinds(c, [], ASSIGNMENT, 0);
    AtEnd(e, [], ASSIGNMENT, 1);
  }

  lemma CameBack(e: Expr)
    requires ParseAll(Format(e)) == Some(e)
    ensures Faithful(e)
  {
    hide Parse, Infixes, Fits, Ends, Need, NoPrefixSteps, SignsApart, Format, Printed, Flat, Strip;
    var c := ParserReads(Format(e), ASSIGNMENT, 0);
    assert Flat(c) + [] == Flat(c);
    FittingProper(c, ASSIGNMENT);
    FlatCounts(c);
    FormatCore(e);
    FormatIsFlat(e);
    PrintedProper(e);
    TreeSteps(c, []);
    TreeSteps(Printed(e), []);
    StepsOfPrinted(e);
    PrintedStrip(e);
    OneReading(c, [], Printed(e), []);
  }

  /** The formatter, the lexer and the parser one after the other. */
  method Reformat(e: Expr) returns (r: Option<Expr>)
    ensures r == Some(e) <==> Faithful(e)
  {
    hide Faithful, ParseAll, Format, Pieces, Lex;
    var buffer := new Buffer();
    buffer.FormatNode(e);
    assert buffer.text == Pieces(e);
    TextReadsAs(e);
    PrintParse(e);
    r := ParseExpression(Lex(buffer.text));
  }

  // ----- operators on which both tables agree -----

  /** Scalars, numbers, assignments to a scalar, prefix `!` and signs that do not follow
      the same sign, a step behind a scalar, and the binary operators to which parser and
      formatter give the same precedence. */
  predicate Agreeing(e: Expr) {
    match e
    case Scalar(_) => true
    case Number(_) => true
    case Tuple(_) => false
    case Assign(_, left, right) => left.Scalar? && Agreeing(right)
    case Binop(op, left, right) => PrintPrec(op) == OpPrec(op) && Agreeing(left) && Agreeing(right)
    case Prefix(op, operand) =>
      !IsStep(op) && Agreeing(operand) && !(IsSign(op) && operand.Prefix? && operand.pop == op)
    case Postfix(_, operand) => operand.Scalar?
  }

  /** An operator that binds no tighter than the expression, or nothing at all, may follow. */
  predicate Follows(e: Expr, next: seq<Tok>) {
    NextPrec(next) == 0 || (next[0].Sym? && IsBinary(next[0].op) && OpPrec(next[0].op) <= NodePrec(e))
  }

  lemma {:induction false} AgreeingEnds(e: Expr, next: seq<Tok>)
    requires Agreeing(e) && Follows(e, next)
    ensures Ends(Printed(e), next)
  {
    match e
    case Scalar(_) =>
    case Number(_) =>
    case Assign(_, _, right) => AgreeingEnds(right, next);
    case Binop(op, _, right) => if NodePrec(right) > PrintPrec(op) { AgreeingEnds(right, next); }
    case Prefix(_, operand) => if NodePrec(operand) >= UNARY { AgreeingEnds(operand, next); }
    case Postfix(_, operand) => ScalarPrinted(operand);
  }

  lemma {:induction false} AgreeingFits(e: Expr, level: nat)
    requires Agreeing(e) && (level <= NodePrec(e) || e.Prefix?)
    ensures Fits(Printed(e), level)
    decreases e, 0
  {
    match e
    case Scalar(_) =>
    case Number(_) =>
    case Assign(_, left, right) => AgreeingFits(right, ASSIGNMENT);
    case Binop(op, left, right) =>
      WrapFits(left, NodePrec(left) < PrintPrec(op), level, [Sym(op)]);
      WrapFits(right, NodePrec(right) <= PrintPrec(op), OpPrec(op) + 1, [RParen]);
    case Prefix(_, operand) => WrapFits(operand, NodePrec(operand) < UNARY, UNARY, [RParen]);
    case Postfix(op, operand) => ScalarPrinted(operand);
  }

  lemma ScalarPrinted(e: Expr)
    requires e.Scalar?
    ensures Wrap(e, false) == Leaf(e) && Wrap(e, true) == Paren(Leaf(e)) && Flat(Leaf(e)) == [Name(e.name)]
  {
  }

  lemma {:induction false} WrapFits(e: Expr, parens: bool, level: nat, next: seq<Tok>)
    requires Agreeing(e) && !AssignNext(next)
    requires !parens ==> (level <= NodePrec(e) || e.Prefix?) && Follows(e, next)
    ensures Fits(Wrap(e, parens), level) && Ends(Wrap(e, parens), next)
    decreases e, 1
  {
    AgreeingEnds(e, if parens then [RParen] else next);
    AgreeingFits(e, if parens then ASSIGNMENT else level);
  }

  /** Unless it is a prefix itself, an operand that binds at least as tightly as a prefix
      does not begin with an operator. */
  lemma {:induction false} AgreeingHead(e: Expr)
    requires Agreeing(e) && NodePrec(e) >= UNARY && !e.Prefix?
    ensures !Flat(Printed(e))[0].Sym?
  {
    match e
    case Binop(op, left, _) => if NodePrec(left) >= PrintPrec(op) { AgreeingHead(left); }
    case Postfix(_, operand) => ScalarPrinted(operand);
    case _ =>
  }

  lemma {:induction false} AgreeingSigns(e: Expr)
    requires Agreeing(e)
    ensures SignsApart(e) && NoPrefixSteps(e)
  {
    match e
    case Scalar(_) =>
    case Number(_) =>
    case Assign(_, _, right) => AgreeingSigns(right);
    case Binop(_, left, right) => AgreeingSigns(left); AgreeingSigns(right);
    case Prefix(op, operand) =>
      AgreeingSigns(operand);
      if NodePrec(operand) >= UNARY && !operand.Prefix? { AgreeingHead(operand); }
    case Postfix(_, _) =>
  }

  /** On these expressions the round trip only depends on the parser's depth limit. */
  lemma AgreeingPrintParse(e: Expr)
    requires Agreeing(e)
    ensures ParseAll(Format(e)) == Some(e) <==> Need(Printed(e)) <= MAX_DEPTH
  {
    AgreeingSigns(e);
    AgreeingFits(e, ASSIGNMENT);
    AgreeingEnds(e, []);
    hide Fits, Ends, Need, SignsApart, NoPrefixSteps, Printed;
    PrintParse(e);
  }

  // ----- inputs on which it fails -----

  /** `($a <= $b) + $c` is printed without the parentheses that matter: the formatter
      does not know `<=`. */
  lemma LessEqualLost()
    ensures var e := Binop(Plus, Binop(Op.LessEqual, Scalar("a"), Scalar("b")), Scalar("c"));
            Format(e) == [Name("a"), Sym(Op.LessEqual), LParen, Name("b"), RParen, Sym(Plus), Name("c")]
            && ParseAll(Format(e)) != Some(e)
  {
    hide ParseAll, Fits;
    PrintParse(Binop(Plus, Binop(Op.LessEqual, Scalar("a"), Scalar("b")), Scalar("c")));
    LessEqualMisfits(Scalar("a"), Scalar("b"), Scalar("c"));
  }

  lemma LessEqualMisfits(a: Expr, b: Expr, c: Expr)
    requires a.Scalar? && b.Scalar? && c.Scalar?
    ensures !Fits(Printed(Binop(Plus, Binop(Op.LessEqual, a, b), c)), ASSIGNMENT)
  {
    var low := Binop(Op.LessEqual, a, b);
    PrintedBinop(Op.LessEqual, a, b);
    PrintedBinop(Plus, low, c);
    hide Fits, Ends, Printed;
    ScalarPrinted(a);
    ScalarPrinted(b);
    ScalarPrinted(c);
    PlusTakesOver(Leaf(a), Paren(Leaf(b)), Leaf(c));
  }

  lemma PrintedBinop(op: InfixOp, left: Expr, right: Expr)
    ensures Printed(Binop(op, left, right)) ==
            Bin(op, Wrap(left, NodePrec(left) < PrintPrec(op)), Wrap(right, NodePrec(right) <= PrintPrec(op)))
  {
  }

  lemma PlusTakesOver(a: Tree, b: Tree, c: Tree)
    ensures !Fits(Bin(Plus, Bin(Op.LessEqual, a, b), c), ASSIGNMENT)
  {
    assert !Ends(Bin(Op.LessEqual, a, b), [Sym(Plus)]);
  }

  /** `- -$a` is printed as `--$a`, and `++$a` as `$a++`. */
  lemma SignsAndStepsLost()
    ensures var e := Prefix(Minus, Prefix(Minus, Scalar("a")));
            Format(e) == [Sym(Dec), Name("a")] && ParseAll(Format(e)) != Some(e)
    ensures var e := Prefix(Inc, Scalar("a"));
            Format(e) == [Name("a"), Sym(Inc)] && ParseAll(Format(e)) != Some(e)
  {
    PrintParse(Prefix(Minus, Prefix(Minus, Scalar("a"))));
    PrintParse(Prefix(Inc, Scalar("a")));
  }
}
