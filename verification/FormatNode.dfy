/** The formatter as it writes: words and blanks appended to a buffer, and the tokens a
    lexer reads back from them. */
module FormatNode {
  import opened Notation
  import opened Printer
  import opened Unambiguous

  /** A piece of text: the spelling of one token, or a blank. */
  datatype Piece = Word(tok: Tok) | Blank

  predicate IsSignWord(p: Piece) { p.Word? && p.tok.Sym? && IsSign(p.tok.op) }

  /** Reading from left to right, taking two equal signs without a blank between them as
      one token. */
  function Lex(ps: seq<Piece>): seq<Tok> {
    if ps == [] then []
    else if ps[0].Blank? then Lex(ps[1..])
    else if IsSignWord(ps[0]) && |ps| > 1 && ps[1] == ps[0] then [Sym(TwoSigns(ps[0].tok.op))] + Lex(ps[2..])
    else [ps[0].tok] + Lex(ps[1..])
  }

  function Pieces(e: Expr): (r: seq<Piece>)
    ensures r != [] && !IsSignWord(r[|r| - 1])
    decreases e, 0
  {
    match e
    case Scalar(name) => [Word(Name(name))]
    case Number(digits) => [Word(Num(digits))]
    case Tuple(name) => [Word(LParen), Word(Name(name)), Word(RParen)]
    case Assign(kind, left, right) => Pieces(left) + [Blank, Word(Sym(Assigning(kind))), Blank] + Pieces(right)
    case Binop(op, left, right) =>
      WrappedPieces(left, NodePrec(left) < PrintPrec(op)) + [Blank, Word(Sym(op)), Blank]
      + WrappedPieces(right, NodePrec(right) <= PrintPrec(op))
    case Prefix(op, operand) =>
      var inner := WrappedPieces(operand, NodePrec(operand) < UNARY);
      if IsStep(op) then inner + [Word(Sym(op))] else [Word(Sym(op))] + inner
    case Postfix(op, operand) => WrappedPieces(operand, NodePrec(operand) < UNARY) + [Word(Sym(op))]
  }

  function WrappedPieces(e: Expr, parens: bool): (r: seq<Piece>)
    ensures r != [] && !IsSignWord(r[|r| - 1])
    decreases e, 1
  {
    if parens then [Word(LParen)] + Pieces(e) + [Word(RParen)] else Pieces(e)
  }

  /** Pieces behind something that is not a sign are read on their own. */
  lemma {:induction false} LexJoin(a: seq<Piece>, b: seq<Piece>)
    requires a != [] ==> !IsSignWord(a[|a| - 1])
    ensures Lex(a + b) == Lex(a) + Lex(b)
    decreases |a|
  {
    hide Lex;
    if a == [] {
      assert a + b == b;
      LexNothing();
    } else {
      LexTurn(a);
      LexTurn(a + b);
      assert (a + b)[1..] == a[1..] + b;
      if IsSignWord(a[0]) && a[1] == a[0] {
        assert (a + b)[2..] == a[2..] + b;
        LexJoin(a[2..], b);
      } else {
        LexJoin(a[1..], b);
      }
    }
  }

  lemma LexNothing()
    ensures Lex([]) == []
  {
  }

  /** Lex, one turn. */
  lemma LexTurn(ps: seq<Piece>)
    requires ps != []
    ensures Lex(ps) ==
            if ps[0].Blank? then Lex(ps[1..])
            else if IsSignWord(ps[0]) && |ps| > 1 && ps[1] == ps[0] then [Sym(TwoSigns(ps[0].tok.op))] + Lex(ps[2..])
            else [ps[0].tok] + Lex(ps[1..])
  {
  }

  /** Any number of the sign `w`, then a word that is neither `w` nor a step operator. */
  predicate SignsThenWord(ps: seq<Piece>, w: Piece) {
    ps != [] &&
    (if ps[0] == w then SignsThenWord(ps[1..], w)
     else ps[0].Word? && !(ps[0].tok.Sym? && IsStep(ps[0].tok.op)))
  }

  lemma {:induction false} SignsThenMore(a: seq<Piece>, b: seq<Piece>, w: Piece)
    requires SignsThenWord(a, w)
    ensures SignsThenWord(a + b, w)
    decreases |a|
  {
    if a[0] == w {
      SignsThenMore(a[1..], b, w);
      assert (a + b)[1..] == a[1..] + b;
    }
  }

  lemma {:induction false} PiecesStart(e: Expr, w: Piece)
    requires IsSignWord(w)
    ensures SignsThenWord(Pieces(e), w)
    decreases e, 0
  {
    match e
    case Scalar(_) =>
    case Number(_) =>
    case Tuple(_) =>
    case Assign(kind, left, right) =>
      PiecesStart(left, w);
      SignsThenMore(Pieces(left), [Blank, Word(Sym(Assigning(kind))), Blank], w);
      SignsThenMore(Pieces(left) + [Blank, Word(Sym(Assigning(kind))), Blank], Pieces(right), w);
    case Binop(op, left, right) =>
      var l := WrappedPieces(left, NodePrec(left) < PrintPrec(op));
      WrappedStart(left, NodePrec(left) < PrintPrec(op), w);
      SignsThenMore(l, [Blank, Word(Sym(op)), Blank], w);
      SignsThenMore(l + [Blank, Word(Sym(op)), Blank], WrappedPieces(right, NodePrec(right) <= PrintPrec(op)), w);
    case Prefix(op, operand) =>
      var inner := WrappedPieces(operand, NodePrec(operand) < UNARY);
      WrappedStart(operand, NodePrec(operand) < UNARY, w);
      SignsThenMore(inner, [Word(Sym(op))], w);
      assert ([Word(Sym(op))] + inner)[1..] == inner;
    case Postfix(op, operand) =>
      WrappedStart(operand, NodePrec(operand) < UNARY, w);
      SignsThenMore(WrappedPieces(operand, NodePrec(operand) < UNARY), [Word(Sym(op))], w);
  }

  lemma {:induction false} WrappedStart(e: Expr, parens: bool, w: Piece)
    requires IsSignWord(w)
    ensures SignsThenWord(WrappedPieces(e, parens), w)
    decreases e, 1
  {
    if !parens { PiecesStart(e, w); }
  }

  /** A prefix in front of a text is glued to the tokens of that text. */
  lemma {:induction false} LexSign(op: Op, ps: seq<Piece>)
    requires IsPrefix(op) && !IsStep(op) && (IsSign(op) ==> SignsThenWord(ps, Word(Sym(op))))
    ensures Lex([Word(Sym(op))] + ps) == Glue(op, Lex(ps))
    decreases |ps|
  {
    var w := Word(Sym(op));
    assert ([w] + ps)[1..] == ps;
    if IsSign(op) && ps[0] == w {
      assert ([w] + ps)[2..] == ps[1..];
      var t := ps[1..];
      if t[0] == w {
        assert t == [w] + ps[2..];
        LexSign(op, ps[2..]);
      } else {
        assert Lex(ps) == [w.tok] + Lex(t);
      }
    }
  }

  /** What the text of an expression is read back as. */
  lemma {:induction false} TextReadsAs(e: Expr)
    ensures Lex(Pieces(e)) == Format(e)
    decreases e, 0
  {
    hide NodePrec, PrintPrec, Lex;
    match e
    case Scalar(name) => LexOne(Name(name));
    case Number(digits) => LexOne(Num(digits));
    case Tuple(name) =>
      LexOne(Name(name));
      ParensRead([Word(Name(name))]);
      assert Pieces(e) == [Word(LParen)] + [Word(Name(name))] + [Word(RParen)];
    case Assign(kind, left, right) =>
      TextReadsAs(left);
      TextReadsAs(right);
      InfixRead(Pieces(left), Assigning(kind), Pieces(right));
    case Binop(op, left, right) =>
      var l, r := NodePrec(left) < PrintPrec(op), NodePrec(right) <= PrintPrec(op);
      WrappedReadsAs(left, l);
      WrappedReadsAs(right, r);
      InfixRead(WrappedPieces(left, l), op, WrappedPieces(right, r));
    case Prefix(op, operand) =>
      var parens := NodePrec(operand) < UNARY;
      WrappedReadsAs(operand, parens);
      if IsStep(op) {
        LexOne(Sym(op));
        LexJoin(WrappedPieces(operand, parens), [Word(Sym(op))]);
      } else {
        if IsSign(op) { WrappedStart(operand, parens, Word(Sym(op))); }
        LexSign(op, WrappedPieces(operand, parens));
      }
    case Postfix(op, operand) =>
      WrappedReadsAs(operand, NodePrec(operand) < UNARY);
      LexOne(Sym(op));
      LexJoin(WrappedPieces(operand, NodePrec(operand) < UNARY), [Word(Sym(op))]);
  }

  lemma {:induction false} WrappedReadsAs(e: Expr, parens: bool)
    ensures Lex(WrappedPieces(e, parens)) == Wrapped(e, parens)
    decreases e, 1
  {
    TextReadsAs(e);
    if parens { ParensRead(Pieces(e)); }
  }

  lemma LexOne(t: Tok)
    ensures Lex([Word(t)]) == [t]
  {
  }

  lemma ParensRead(ps: seq<Piece>)
    requires ps != [] && !IsSignWord(ps[|ps| - 1])
    ensures Lex([Word(LParen)] + ps + [Word(RParen)]) == InParens(Lex(ps))
  {
    LexOne(LParen);
    LexOne(RParen);
    hide Lex;
    LexJoin([Word(LParen)] + ps, [Word(RParen)]);
    LexJoin([Word(LParen)], ps);
  }

  lemma InfixRead(l: seq<Piece>, op: Op, r: seq<Piece>)
    requires l != [] && !IsSignWord(l[|l| - 1])
    ensures Lex(l + [Blank, Word(Sym(op)), Blank] + r) == Lex(l) + [Sym(op)] + Lex(r)
  {
    LexBlanks(op);
    hide Lex;
    var m := [Blank, Word(Sym(op)), Blank];
    LexJoin(l + m, r);
    LexJoin(l, m);
  }

  lemma LexBlanks(op: Op)
    ensures Lex([Blank, Word(Sym(op)), Blank]) == [Sym(op)]
  {
    var m, n := [Blank, Word(Sym(op)), Blank], [Word(Sym(op)), Blank];
    assert m[1..] == n && n[1..] == [Blank];
    assert Lex(n) == [Sym(op)] + Lex([Blank]);
  }

  /** The growing text of format_node. */
  class Buffer {
    var text: seq<Piece>

    constructor ()
      ensures text == []
    {
      text := [];
    }

    method Append(p: Piece)
      modifies this
      ensures text == old(text) + [p]
    {
      text := text + [p];
    }

    method FormatNode(e: Expr)
      modifies this
      ensures text == old(text) + Pieces(e)
      decreases Count(e), 2
    {
      hide NodePrec, PrintPrec, WrappedPieces;
      match e
      case Scalar(name) => Append(Word(Name(name)));
      case Number(digits) => Append(Word(Num(digits)));
      case Tuple(name) =>
        Append(Word(LParen));
        Append(Word(Name(name)));
        Append(Word(RParen));
      case Assign(kind, left, right) =>
        PlainPieces(left);
        PlainPieces(right);
        FormatInfix(left, false, Assigning(kind), right, false);
      case Binop(op, left, right) =>
        FormatInfix(left, NodePrec(left) < PrintPrec(op), op, right, NodePrec(right) <= PrintPrec(op));
      case Prefix(op, operand) =>
        if !IsStep(op) {
          Append(Word(Sym(op)));
        }
        FormatOperand(operand, NodePrec(operand) < UNARY);
        if IsStep(op) {
          Append(Word(Sym(op)));
        }
      case Postfix(op, operand) =>
        FormatOperand(operand, NodePrec(operand) < UNARY);
        Append(Word(Sym(op)));
    }

    /** Left operand, operator between blanks, right operand. */
    method FormatInfix(left: Expr, leftParens: bool, op: Op, right: Expr, rightParens: bool)
      modifies this
      ensures text == old(text) + (WrappedPieces(left, leftParens) + [Blank, Word(Sym(op)), Blank] + WrappedPieces(right, rightParens))
      decreases Count(left) + Count(right) + 1, 1
    {
      hide WrappedPieces;
      FormatOperand(left, leftParens);
      AppendInfix(op);
      FormatOperand(right, rightParens);
    }

    method FormatOperand(e: Expr, parens: bool)
      modifies this
      ensures text == old(text) + WrappedPieces(e, parens)
      decreases Count(e), 3
    {
      if parens { Append(Word(LParen)); }
      FormatNode(e);
      if parens { Append(Word(RParen)); }
    }

    method AppendInfix(op: Op)
      modifies this
      ensures text == old(text) + [Blank, Word(Sym(op)), Blank]
    {
      Append(Blank);
      Append(Word(Sym(op)));
      Append(Blank);
    }
  }

  lemma PlainPieces(e: Expr)
    ensures WrappedPieces(e, false) == Pieces(e)
  {
  }
}
