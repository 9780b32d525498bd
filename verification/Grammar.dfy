/** Which operators bind tighter: the ladder of operator groups, read off what the parser
    builds and where the formatter puts parentheses. */
module Grammar {
  import opened Values
  import opened Notation
  import opened PrattParser
  import opened Printer
  import opened Readings

  /** The groups of binary operators, from the loosest to the tightest. Prefix operators
      and steps stand between the last two. */
  predicate InGroup(op: Op, k: nat) {
    match k
    case 0 => op.Or?
    case 1 => op.And?
    case 2 => op.BitOr?
    case 3 => op.BitXor?
    case 4 => op.BitAnd?
    case 5 => op.Same? || op.NotSame? || op.Matches? || op.MatchesNot? || op.Spaceship? || op.Predicate?
    case 6 => op.Less? || op.Greater? || op.LessEqual? || op.GreaterEqual?
    case 7 => op.ShiftLeft? || op.ShiftRight?
    case 8 => op.Dot?
    case 9 => op.Plus? || op.Minus?
    case 10 => op.Star? || op.Slash? || op.Percent?
    case 11 => op.Power?
    case _ => false
  }

  /** Every binary operator has its place. */
  lemma EveryOperator(op: InfixOp) returns (k: nat)
    ensures InGroup(op, k) && k < 12
  {
    k := if OpPrec(op) == 15 then 11 else OpPrec(op) - 2;
  }

  lemma LevelOfGroup(op: Op, k: nat)
    requires InGroup(op, k)
    ensures IsBinary(op) && OpPrec(op) == if k == 11 then 15 else k + 2
  {
  }

  /** A tree that fits the whole input is what the parser builds. */
  lemma TreeParsed(c: Tree)
    requires Fits(c, ASSIGNMENT) && Ends(c, []) && Need(c) <= MAX_DEPTH
    ensures ParseAll(Flat(c)) == Some(Strip(c))
  {
    ParserFinds(c, [], ASSIGNMENT, 0);
    assert Flat(c) + [] == Flat(c);
    AtEnd(Strip(c), [], ASSIGNMENT, 1);
  }

  function Atom(name: string): Tree { Leaf(Scalar(name)) }

  lemma AtomFacts(name: string, level: nat, next: seq<Tok>)
    ensures Flat(Atom(name)) == [Name(name)] && Strip(Atom(name)) == Scalar(name) && Need(Atom(name)) == 1
    ensures Fits(Atom(name), level) && Ends(Atom(name), next)
  {
  }

  /** A binary operator between two trees. */
  lemma BinaryFacts(op: InfixOp, l: Tree, r: Tree, level: nat, next: seq<Tok>)
    ensures Flat(Bin(op, l, r)) == Flat(l) + [Sym(op)] + Flat(r) && Strip(Bin(op, l, r)) == Binop(op, Strip(l), Strip(r))
    ensures Need(Bin(op, l, r)) == Max(Need(l), 1 + Need(r))
    ensures Ends(Bin(op, l, r), next) <==> NextPrec(next) <= OpPrec(op) && Ends(r, next)
    ensures Fits(Bin(op, l, r), level) <==> level <= OpPrec(op) && Fits(l, level) && Ends(l, [Sym(op)]) && Fits(r, OpPrec(op) + 1)
  {
  }

  lemma NextIs(op: Op)
    ensures NextPrec([Sym(op)]) == OpPrec(op) && NextPrec([]) == 0
  {
  }

  lemma LeftFirst(first: InfixOp, second: InfixOp, a: string, b: string, c: string)
    requires 1 <= OpPrec(second) <= OpPrec(first)
    ensures ParseAll([Name(a), Sym(first), Name(b), Sym(second), Name(c)])
         == Some(Binop(second, Binop(first, Scalar(a), Scalar(b)), Scalar(c)))
  {
    hide OpPrec, ParseAll, Fits, Ends, Flat, Strip, Need, NextPrec;
    var left := Bin(first, Atom(a), Atom(b));
    AtomFacts(a, ASSIGNMENT, [Sym(first)]);
    AtomFacts(b, OpPrec(first) + 1, [Sym(second)]);
    AtomFacts(c, OpPrec(second) + 1, []);
    NextIs(second);
    BinaryFacts(first, Atom(a), Atom(b), ASSIGNMENT, [Sym(second)]);
    BinaryFacts(second, left, Atom(c), ASSIGNMENT, []);
    TreeParsed(Bin(second, left, Atom(c)));
    assert [Name(a)] + [Sym(first)] + [Name(b)] + [Sym(second)] + [Name(c)] == [Name(a), Sym(first), Name(b), Sym(second), Name(c)];
  }

  lemma RightFirst(op: InfixOp, first: InfixOp, a: string, b: string, c: string)
    requires 1 <= OpPrec(op) < OpPrec(first)
    ensures ParseAll([Name(a), Sym(op), Name(b), Sym(first), Name(c)])
         == Some(Binop(op, Scalar(a), Binop(first, Scalar(b), Scalar(c))))
  {
    hide OpPrec, ParseAll, Fits, Ends, Flat, Strip, Need, NextPrec;
    var right := Bin(first, Atom(b), Atom(c));
    AtomFacts(a, ASSIGNMENT, [Sym(op)]);
    AtomFacts(b, OpPrec(op) + 1, [Sym(first)]);
    AtomFacts(c, OpPrec(first) + 1, []);
    NextIs(op);
    BinaryFacts(first, Atom(b), Atom(c), OpPrec(op) + 1, []);
    BinaryFacts(op, Atom(a), right, ASSIGNMENT, []);
    TreeParsed(Bin(op, Atom(a), right));
    assert [Name(a)] + [Sym(op)] + ([Name(b)] + [Sym(first)] + [Name(c)]) == [Name(a), Sym(op), Name(b), Sym(first), Name(c)];
  }

  /** Of two operators the tighter one takes the operand between them. */
  lemma TighterFirst(i: nat, j: nat, loose: Op, tight: Op, a: string, b: string, c: string)
    requires i < j && InGroup(loose, i) && InGroup(tight, j)
    ensures IsBinary(loose) && IsBinary(tight)
    ensures ParseAll([Name(a), Sym(loose), Name(b), Sym(tight), Name(c)])
         == Some(Binop(loose, Scalar(a), Binop(tight, Scalar(b), Scalar(c))))
    ensures ParseAll([Name(a), Sym(tight), Name(b), Sym(loose), Name(c)])
         == Some(Binop(loose, Binop(tight, Scalar(a), Scalar(b)), Scalar(c)))
  {
    LevelOfGroup(loose, i);
    LevelOfGroup(tight, j);
    hide InGroup, OpPrec, ParseAll;
    RightFirst(loose, tight, a, b, c);
    LeftFirst(tight, loose, a, b, c);
  }

  /** Operators of one group associate to the left, `**` included. */
  lemma LeftAssociative(k: nat, first: Op, second: Op, a: string, b: string, c: string)
    requires InGroup(first, k) && InGroup(second, k)
    ensures IsBinary(first) && IsBinary(second)
    ensures ParseAll([Name(a), Sym(first), Name(b), Sym(second), Name(c)])
         == Some(Binop(second, Binop(first, Scalar(a), Scalar(b)), Scalar(c)))
  {
    LevelOfGroup(first, k);
    LevelOfGroup(second, k);
    hide InGroup, OpPrec, ParseAll;
    LeftFirst(first, second, a, b, c);
  }

  // ----- assignment -----

  lemma AssignFacts(kind: AssignKind, l: Tree, r: Tree)
    ensures Flat(Asg(kind, l, r)) == Flat(l) + [Sym(Assigning(kind))] + Flat(r)
    ensures Strip(Asg(kind, l, r)) == Assign(kind, Strip(l), Strip(r)) && Need(Asg(kind, l, r)) == Max(Need(l), 1 + Need(r))
    ensures Ends(Asg(kind, l, r), []) <==> Ends(r, [])
    ensures Fits(Asg(kind, l, r), ASSIGNMENT) <==>
            Fits(l, ASSIGNMENT) && Ends(l, [Sym(Assigning(kind))]) && Fits(r, ASSIGNMENT)
  {
  }

  /** Assignment is looser than every operator, on both sides, and associates to the right. */
  lemma AssignmentLast(kind: AssignKind, other: AssignKind, op: InfixOp, a: string, b: string, c: string)
    ensures ParseAll([Name(a), Sym(Assigning(kind)), Name(b), Sym(op), Name(c)])
         == Some(Assign(kind, Scalar(a), Binop(op, Scalar(b), Scalar(c))))
    ensures ParseAll([Name(a), Sym(op), Name(b), Sym(Assigning(kind)), Name(c)])
         == Some(Assign(kind, Binop(op, Scalar(a), Scalar(b)), Scalar(c)))
    ensures ParseAll([Name(a), Sym(Assigning(kind)), Name(b), Sym(Assigning(other)), Name(c)])
         == Some(Assign(kind, Scalar(a), Assign(other, Scalar(b), Scalar(c))))
  {
    AssignmentLevel(kind, op);
    hide OpPrec, ParseAll, Fits, Ends, Flat, Strip, Need, NextPrec;
    NextIs(op);
    NextIs(Assigning(kind));
    AtomFacts(a, ASSIGNMENT, [Sym(Assigning(kind))]);
    AtomFacts(a, ASSIGNMENT, [Sym(op)]);
    AtomFacts(b, ASSIGNMENT, [Sym(op)]);
    AtomFacts(b, ASSIGNMENT, [Sym(Assigning(other))]);
    AtomFacts(b, OpPrec(op) + 1, [Sym(Assigning(kind))]);
    AtomFacts(c, OpPrec(op) + 1, []);
    AtomFacts(c, ASSIGNMENT, []);
    BinaryFacts(op, Atom(b), Atom(c), ASSIGNMENT, []);
    BinaryFacts(op, Atom(a), Atom(b), ASSIGNMENT, [Sym(Assigning(kind))]);
    AssignFacts(kind, Atom(a), Bin(op, Atom(b), Atom(c)));
    AssignFacts(kind, Bin(op, Atom(a), Atom(b)), Atom(c));
    AssignFacts(other, Atom(b), Atom(c));
    AssignFacts(kind, Atom(a), Asg(other, Atom(b), Atom(c)));
    TreeParsed(Asg(kind, Atom(a), Bin(op, Atom(b), Atom(c))));
    TreeParsed(Asg(kind, Bin(op, Atom(a), Atom(b)), Atom(c)));
    TreeParsed(Asg(kind, Atom(a), Asg(other, Atom(b), Atom(c))));
    Five(Name(a), Sym(Assigning(kind)), Name(b), Sym(op), Name(c));
    Five(Name(a), Sym(op), Name(b), Sym(Assigning(kind)), Name(c));
    Five(Name(a), Sym(Assigning(kind)), Name(b), Sym(Assigning(other)), Name(c));
  }

  lemma AssignmentLevel(kind: AssignKind, op: InfixOp)
    ensures OpPrec(Assigning(kind)) == ASSIGNMENT < OpPrec(op)
  {
  }

  lemma Five(a: Tok, b: Tok, c: Tok, d: Tok, e: Tok)
    ensures [a] + [b] + ([c] + [d] + [e]) == [a, b, c, d, e]
    ensures [a] + [b] + [c] + [d] + [e] == [a, b, c, d, e]
  {
  }

  // ----- parentheses -----

  lemma ParenFacts(inner: Tree, level: nat, next: seq<Tok>)
    ensures Flat(Paren(inner)) == [LParen] + Flat(inner) + [RParen] && Strip(Paren(inner)) == Strip(inner)
    ensures Need(Paren(inner)) == 1 + Need(inner)
    ensures Ends(Paren(inner), next) <==> !(Strip(inner).Scalar? && AssignNext(next))
    ensures Fits(Paren(inner), level) <==> Fits(inner, ASSIGNMENT) && Ends(inner, [RParen])
    ensures NextPrec([RParen]) == 0
  {
  }

  /** Parentheses decide against every group. */
  lemma ParenthesesDecide(inner: InfixOp, outer: InfixOp, a: string, b: string, c: string)
    ensures ParseAll([LParen, Name(a), Sym(inner), Name(b), RParen, Sym(outer), Name(c)])
         == Some(Binop(outer, Binop(inner, Scalar(a), Scalar(b)), Scalar(c)))
    ensures ParseAll([Name(a), Sym(outer), LParen, Name(b), Sym(inner), Name(c), RParen])
         == Some(Binop(outer, Scalar(a), Binop(inner, Scalar(b), Scalar(c))))
  {
    PowerLevel(inner);
    PowerLevel(outer);
    hide OpPrec, ParseAll, Fits, Ends, Flat, Strip, Need, NextPrec;
    AtomFacts(a, ASSIGNMENT, [Sym(inner)]);
    AtomFacts(a, ASSIGNMENT, [Sym(outer)]);
    AtomFacts(b, ASSIGNMENT, [Sym(inner)]);
    AtomFacts(b, OpPrec(inner) + 1, [RParen]);
    AtomFacts(c, OpPrec(inner) + 1, [RParen]);
    AtomFacts(c, OpPrec(outer) + 1, []);
    NextIs(outer);
    var x, y := Bin(inner, Atom(a), Atom(b)), Bin(inner, Atom(b), Atom(c));
    BinaryFacts(inner, Atom(a), Atom(b), ASSIGNMENT, [RParen]);
    BinaryFacts(inner, Atom(b), Atom(c), ASSIGNMENT, [RParen]);
    ParenFacts(x, ASSIGNMENT, [Sym(outer)]);
    ParenFacts(y, OpPrec(outer) + 1, []);
    BinaryFacts(outer, Paren(x), Atom(c), ASSIGNMENT, []);
    BinaryFacts(outer, Atom(a), Paren(y), ASSIGNMENT, []);
    TreeParsed(Bin(outer, Paren(x), Atom(c)));
    TreeParsed(Bin(outer, Atom(a), Paren(y)));
    assert [LParen] + ([Name(a)] + [Sym(inner)] + [Name(b)]) + [RParen] + [Sym(outer)] + [Name(c)]
        == [LParen, Name(a), Sym(inner), Name(b), RParen, Sym(outer), Name(c)];
    assert [Name(a)] + [Sym(outer)] + ([LParen] + ([Name(b)] + [Sym(inner)] + [Name(c)]) + [RParen])
        == [Name(a), Sym(outer), LParen, Name(b), Sym(inner), Name(c), RParen];
  }

  /** Around a scalar they mean nothing, except in front of an assignment, where they make a
      tuple. */
  lemma ScalarInParentheses(kind: AssignKind, op: InfixOp, a: string, b: string)
    ensures ParseAll([LParen, Name(a), RParen]) == Some(Scalar(a))
    ensures ParseAll([LParen, Name(a), RParen, Sym(op), Name(b)]) == Some(Binop(op, Scalar(a), Scalar(b)))
    ensures ParseAll([LParen, Name(a), RParen, Sym(Assigning(kind)), Name(b)]) == Some(Assign(kind, Tuple(a), Scalar(b)))
  {
    PowerLevel(op);
    hide OpPrec, ParseAll, Ends, Flat, Strip, Need, NextPrec, Fits;
    AtomFacts(a, ASSIGNMENT, [RParen]);
    AtomFacts(b, OpPrec(op) + 1, []);
    AtomFacts(b, ASSIGNMENT, []);
    NextIs(op);
    ParenFacts(Atom(a), ASSIGNMENT, []);
    ParenFacts(Atom(a), ASSIGNMENT, [Sym(op)]);
    TreeParsed(Paren(Atom(a)));
    assert [LParen] + [Name(a)] + [RParen] == [LParen, Name(a), RParen];
    BinaryFacts(op, Paren(Atom(a)), Atom(b), ASSIGNMENT, []);
    TreeParsed(Bin(op, Paren(Atom(a)), Atom(b)));
    assert [LParen] + [Name(a)] + [RParen] + [Sym(op)] + [Name(b)] == [LParen, Name(a), RParen, Sym(op), Name(b)];
    OneFacts(a, kind);
    AssignFacts(kind, One(Atom(a)), Atom(b));
    TreeParsed(Asg(kind, One(Atom(a)), Atom(b)));
    assert [LParen] + [Name(a)] + [RParen] + [Sym(Assigning(kind))] + [Name(b)]
        == [LParen, Name(a), RParen, Sym(Assigning(kind)), Name(b)];
  }

  lemma OneFacts(a: string, kind: AssignKind)
    ensures var one := One(Atom(a));
            && Flat(one) == [LParen] + [Name(a)] + [RParen] && Strip(one) == Tuple(a) && Need(one) == 2
            && Fits(one, ASSIGNMENT) && Ends(one, [Sym(Assigning(kind))])
  {
  }

  // ----- prefixes and steps -----

  lemma PrefixFacts(pre: PrefixOp, inner: Tree, level: nat, next: seq<Tok>)
    ensures Flat(Pre(pre, inner)) == [Sym(pre)] + Flat(inner) && Strip(Pre(pre, inner)) == Prefix(pre, Strip(inner))
    ensures Need(Pre(pre, inner)) == 1 + Need(inner)
    ensures Ends(Pre(pre, inner), next) <==> NextPrec(next) < UNARY && Ends(inner, next)
    ensures Fits(Pre(pre, inner), level) <==> Fits(inner, UNARY)
  {
  }

  lemma StepFacts(step: StepOp, inner: Tree, level: nat, next: seq<Tok>)
    ensures Flat(Post(step, inner)) == Flat(inner) + [Sym(step)] && Strip(Post(step, inner)) == Postfix(step, Strip(inner))
    ensures Need(Post(step, inner)) == Need(inner) && Ends(Post(step, inner), next)
    ensures Fits(Post(step, inner), level) <==> level <= INCDEC && Fits(inner, level) && Ends(inner, [Sym(step)])
    ensures NextPrec([Sym(step)]) == INCDEC
  {
  }

  /** A prefix binds tighter than every operator but `**`. */
  lemma PrefixBinding(pre: PrefixOp, op: InfixOp, a: string, b: string)
    ensures ParseAll([Sym(pre), Name(a), Sym(op), Name(b)])
         == Some(if op.Power? then Prefix(pre, Binop(op, Scalar(a), Scalar(b)))
                 else Binop(op, Prefix(pre, Scalar(a)), Scalar(b)))
    ensures ParseAll([Name(a), Sym(op), Sym(pre), Name(b)]) == Some(Binop(op, Scalar(a), Prefix(pre, Scalar(b))))
  {
    PowerLevel(op);
    hide OpPrec, ParseAll, Fits, Ends, Flat, Strip, Need, NextPrec;
    NextIs(op);
    AtomFacts(a, UNARY, [Sym(op)]);
    AtomFacts(a, ASSIGNMENT, [Sym(op)]);
    AtomFacts(b, OpPrec(op) + 1, []);
    AtomFacts(b, UNARY, []);
    PrefixFacts(pre, Atom(a), ASSIGNMENT, [Sym(op)]);
    PrefixFacts(pre, Atom(b), OpPrec(op) + 1, []);
    BinaryFacts(op, Atom(a), Pre(pre, Atom(b)), ASSIGNMENT, []);
    TreeParsed(Bin(op, Atom(a), Pre(pre, Atom(b))));
    assert [Name(a)] + [Sym(op)] + ([Sym(pre)] + [Name(b)]) == [Name(a), Sym(op), Sym(pre), Name(b)];
    if op.Power? {
      BinaryFacts(op, Atom(a), Atom(b), UNARY, []);
      PrefixFacts(pre, Bin(op, Atom(a), Atom(b)), ASSIGNMENT, []);
      TreeParsed(Pre(pre, Bin(op, Atom(a), Atom(b))));
      assert [Sym(pre)] + ([Name(a)] + [Sym(op)] + [Name(b)]) == [Sym(pre), Name(a), Sym(op), Name(b)];
    } else {
      BinaryFacts(op, Pre(pre, Atom(a)), Atom(b), ASSIGNMENT, []);
      TreeParsed(Bin(op, Pre(pre, Atom(a)), Atom(b)));
      assert [Sym(pre)] + [Name(a)] + [Sym(op)] + [Name(b)] == [Sym(pre), Name(a), Sym(op), Name(b)];
    }
  }

  lemma PowerLevel(op: InfixOp)
    ensures 1 < OpPrec(op) && if op.Power? then OpPrec(op) > INCDEC else OpPrec(op) < UNARY
  {
  }

  /** A step binds tighter than every prefix and every operator but `**`. */
  lemma StepBinding(step: StepOp, pre: PrefixOp, op: InfixOp, a: string, b: string)
    ensures ParseAll([Sym(pre), Name(a), Sym(step)]) == Some(Prefix(pre, Postfix(step, Scalar(a))))
    ensures ParseAll([Name(a), Sym(op), Name(b), Sym(step)])
         == Some(if op.Power? then Postfix(step, Binop(op, Scalar(a), Scalar(b)))
                 else Binop(op, Scalar(a), Postfix(step, Scalar(b))))
    ensures ParseAll([Name(a), Sym(step), Sym(op), Name(b)]) == Some(Binop(op, Postfix(step, Scalar(a)), Scalar(b)))
  {
    PowerLevel(op);
    hide OpPrec, ParseAll, Fits, Ends, Flat, Strip, Need, NextPrec;
    NextIs(op);
    AtomFacts(a, UNARY, [Sym(step)]);
    AtomFacts(a, ASSIGNMENT, [Sym(step)]);
    AtomFacts(a, ASSIGNMENT, [Sym(op)]);
    AtomFacts(b, OpPrec(op) + 1, [Sym(step)]);
    AtomFacts(b, OpPrec(op) + 1, []);
    StepFacts(step, Atom(a), UNARY, []);
    PrefixFacts(pre, Post(step, Atom(a)), ASSIGNMENT, []);
    TreeParsed(Pre(pre, Post(step, Atom(a))));
    assert [Sym(pre)] + ([Name(a)] + [Sym(step)]) == [Sym(pre), Name(a), Sym(step)];
    StepFacts(step, Atom(a), ASSIGNMENT, [Sym(op)]);
    BinaryFacts(op, Post(step, Atom(a)), Atom(b), ASSIGNMENT, []);
    TreeParsed(Bin(op, Post(step, Atom(a)), Atom(b)));
    assert [Name(a)] + [Sym(step)] + [Sym(op)] + [Name(b)] == [Name(a), Sym(step), Sym(op), Name(b)];
    if op.Power? {
      BinaryFacts(op, Atom(a), Atom(b), ASSIGNMENT, [Sym(step)]);
      StepFacts(step, Bin(op, Atom(a), Atom(b)), ASSIGNMENT, []);
      TreeParsed(Post(step, Bin(op, Atom(a), Atom(b))));
      assert [Name(a)] + [Sym(op)] + [Name(b)] + [Sym(step)] == [Name(a), Sym(op), Name(b), Sym(step)];
    } else {
      StepFacts(step, Atom(b), OpPrec(op) + 1, []);
      BinaryFacts(op, Atom(a), Post(step, Atom(b)), ASSIGNMENT, []);
      TreeParsed(Bin(op, Atom(a), Post(step, Atom(b))));
      assert [Name(a)] + [Sym(op)] + ([Name(b)] + [Sym(step)]) == [Name(a), Sym(op), Name(b), Sym(step)];
    }
  }

  // ----- the formatter's groups -----

  predicate IsOrdering(word: Word) {
    word.Gt? || word.Ge? || word.Lt? || word.Le? || word.In? || word.IsA?
  }

  /** The formatter's groups: it takes some words for comparisons, and some operators it
      does not know for operands. */
  predicate InPrintGroup(op: Op, k: nat) {
    if k == 12 then op.LessEqual? || op.GreaterEqual? || op == Predicate(Cmp)
    else if k == 6 then op.Less? || op.Greater? || (op.Predicate? && IsOrdering(op.word))
    else if k == 5 then
      op.Same? || op.NotSame? || op.Matches? || op.MatchesNot? || op.Spaceship?
      || (op.Predicate? && !IsOrdering(op.word) && op.word != Cmp)
    else InGroup(op, k)
  }

  lemma LevelOfPrintGroup(op: Op, k: nat)
    requires InPrintGroup(op, k)
    ensures IsBinary(op) && PrintPrec(op) == if k == 12 then PRIMARY else if k == 11 then 15 else k + 2
  {
  }

  function Maybe(parens: bool, toks: seq<Tok>): seq<Tok> { if parens then [LParen] + toks + [RParen] else toks }

  /** An operand stands without parentheses exactly if its operator is in a tighter group
      or, on the left, in the same one. Behind an operator the formatter does not know even
      a scalar gets parentheses. */
  lemma OperandParens(i: nat, j: nat, outer: Op, inner: Op, x: Expr, y: Expr, a: string)
    requires InPrintGroup(outer, i) && InPrintGroup(inner, j)
    ensures IsBinary(outer) && IsBinary(inner)
    ensures var e := Binop(inner, x, y);
            && Format(Binop(outer, e, Scalar(a))) == Maybe(j < i, Format(e)) + [Sym(outer)] + Maybe(i == 12, [Name(a)])
            && Format(Binop(outer, Scalar(a), e)) == [Name(a)] + [Sym(outer)] + Maybe(j <= i, Format(e))
  {
    LevelOfPrintGroup(outer, i);
    LevelOfPrintGroup(inner, j);
    hide InPrintGroup, PrintPrec, Format;
    var e := Binop(inner, x, y);
    AtomFormat(a);
    BinopFormat(outer, e, Scalar(a));
    BinopFormat(outer, Scalar(a), e);
  }

  lemma AtomFormat(a: string)
    ensures Format(Scalar(a)) == [Name(a)] && NodePrec(Scalar(a)) == PRIMARY
  {
  }

  lemma BinopFormat(op: InfixOp, l: Expr, r: Expr)
    ensures Format(Binop(op, l, r)) ==
            Maybe(NodePrec(l) < PrintPrec(op), Format(l)) + [Sym(op)] + Maybe(NodePrec(r) <= PrintPrec(op), Format(r))
  {
    hide PrintPrec, NodePrec;
  }

  /** A prefix or a step beside an operator has parentheses exactly beside `**` and beside
      the operators the formatter does not know. */
  lemma UnaryParens(k: nat, op: Op, unary: Expr, a: string)
    requires InPrintGroup(op, k) && (unary.Prefix? || unary.Postfix?)
    ensures IsBinary(op)
    ensures Format(Binop(op, unary, Scalar(a))) == Maybe(k >= 11, Format(unary)) + [Sym(op)] + Maybe(k == 12, [Name(a)])
    ensures Format(Binop(op, Scalar(a), unary)) == [Name(a)] + [Sym(op)] + Maybe(k >= 11, Format(unary))
  {
    LevelOfPrintGroup(op, k);
    hide InPrintGroup, PrintPrec, Format;
    AtomFormat(a);
    BinopFormat(op, unary, Scalar(a));
    BinopFormat(op, Scalar(a), unary);
  }

  /** The operand of a prefix or a step has parentheses exactly if it is an assignment or a
      binary operator looser than `**`. */
  lemma UnaryOperandParens(k: nat, op: Op, x: Expr, y: Expr, step: StepOp, left: Expr, right: Expr, kind: AssignKind)
    requires InPrintGroup(op, k)
    ensures IsBinary(op)
    ensures var e := Binop(op, x, y);
            && Format(Postfix(step, e)) == Maybe(k < 11, Format(e)) + [Sym(step)]
            && Format(Prefix(Bang, e)) == [Sym(Bang)] + Maybe(k < 11, Format(e))
    ensures var e := Assign(kind, left, right);
            && Format(Postfix(step, e)) == Maybe(true, Format(e)) + [Sym(step)]
            && Format(Prefix(Bang, e)) == [Sym(Bang)] + Maybe(true, Format(e))
  {
    LevelOfPrintGroup(op, k);
    hide InPrintGroup, PrintPrec;
    var e, f := Binop(op, x, y), Assign(kind, left, right);
    assert Format(Postfix(step, e)) == Wrapped(e, k < 11) + [Sym(step)];
    assert Format(Prefix(Bang, e)) == Glue(Bang, Wrapped(e, k < 11));
    assert Format(Postfix(step, f)) == Wrapped(f, true) + [Sym(step)];
    assert Format(Prefix(Bang, f)) == Glue(Bang, Wrapped(f, true));
  }

  /** The two tables put an operator on the same level unless it is `<=`, `>=`, `cmp` or an
      ordering word. */
  lemma TablesAgree(op: InfixOp)
    ensures PrintPrec(op) == OpPrec(op) <==>
            !(op.LessEqual? || op.GreaterEqual? || (op.Predicate? && (op.word.Cmp? || IsOrdering(op.word))))
  {
  }

  // ----- the depth limit -----

  function Bangs(n: nat, rest: seq<Tok>): seq<Tok> { if n == 0 then rest else [Sym(Bang)] + Bangs(n - 1, rest) }

  function Nots(n: nat, e: Expr): Expr { if n == 0 then e else Prefix(Bang, Nots(n - 1, e)) }

  lemma {:induction false} NotsParsed(n: nat, a: string, level: nat, depth: nat)
    requires level >= 1
    ensures Parse(Bangs(n, [Name(a)]), level, depth) ==
            if n + depth < 100 then Some(Parsed(Nots(n, Scalar(a)), [])) else None
    decreases n
  {
    hide Infixes;
    var toks := Bangs(n, [Name(a)]);
    if depth < 100 {
      ParseTurn(toks, level, depth);
      if n == 0 {
        assert toks[1..] == [];
        AtEnd(Scalar(a), [], level, depth + 1);
      } else {
        assert toks[1..] == Bangs(n - 1, [Name(a)]);
        NotsParsed(n - 1, a, UNARY, depth + 1);
        AtEnd(Nots(n, Scalar(a)), [], level, depth + 1);
      }
    }
  }

  /** Ninety-nine nested operands are parsed, a hundred are too deep. */
  lemma DepthLimit(n: nat, a: string)
    ensures ParseAll(Bangs(n, [Name(a)])) == if n < 100 then Some(Nots(n, Scalar(a))) else None
  {
    NotsParsed(n, a, ASSIGNMENT, 0);
    hide Parse;
  }
}
