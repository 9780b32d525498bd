/** The parser as it moves: an index into the tokens, the recursion depth and the error
    flag. */
module ParserMachine {
  import opened Values
  import opened Notation
  import opened PrattParser

  class Parser {
    const tokens: seq<Tok>
    var current: nat
    var depth: nat
    var hadError: bool

    ghost predicate Valid()
      reads this
    {
      current <= |tokens|
    }

    ghost function Rest(): seq<Tok>
      reads this
      requires Valid()
    {
      tokens[current..]
    }

    constructor (tokens: seq<Tok>)
      ensures Valid() && this.tokens == tokens && Rest() == tokens && depth == 0 && !hadError
    {
      this.tokens := tokens;
      current := 0;
      depth := 0;
      hadError := false;
    }

    /** The state and the result are those the parsing function describes. */
    ghost predicate Gives(r: Option<Parsed>, e: Option<Expr>)
      reads this
    {
      && Valid() && hadError == r.None?
      && (r.Some? ==> e == Some(r.value.e) && Rest() == r.value.rest)
    }

    /** The token in front, an unknown one at the end of the input. */
    function Peek(): (t: Tok)
      reads this
      requires Valid()
      ensures Rest() == [] ==> t == Other
      ensures Rest() != [] ==> t == Rest()[0]
    {
      if current < |tokens| then tokens[current] else Other
    }

    method Advance() returns (previous: Tok)
      requires Valid()
      modifies this`current
      ensures Valid() && previous == old(Peek())
      ensures Rest() == if old(Rest()) == [] then [] else old(Rest())[1..]
    {
      previous := Peek();
      if current < |tokens| { current := current + 1; }
    }

    method ParsePrecedence(level: nat) returns (e: Option<Expr>)
      requires Valid() && !hadError && level >= 1
      modifies this
      ensures Gives(Parse(old(Rest()), level, old(depth)), e)
      ensures depth == old(depth) && (!hadError ==> current > old(current))
      decreases |tokens| - current, 2
    {
      if depth >= MAX_DEPTH {
        hadError := true;
        return None;
      }
      depth := depth + 1;
      e := ParsePrecedenceInner(level);
      depth := depth - 1;
    }

    method ParsePrecedenceInner(level: nat) returns (e: Option<Expr>)
      requires Valid() && !hadError && level >= 1 && 1 <= depth <= MAX_DEPTH
      modifies this
      ensures Gives(Parse(old(Rest()), level, old(depth) - 1), e)
      ensures depth == old(depth) && (!hadError ==> current > old(current))
      decreases |tokens| - current, 1
    {
      hide Parse, Infixes, InfixPrec, Grouped;
      ghost var d := depth;
      ghost var all := Parse(Rest(), level, d - 1);
      e := PrefixRule(level);
      while !hadError && level <= InfixPrec(Peek())
        invariant Valid() && depth == d && (hadError ==> all.None?)
        invariant !hadError ==> e.Some? && current > old(current) && all == Infixes(e.value, Rest(), level, d)
        decreases !hadError, |tokens| - current
      {
        NothingAtEnd(Rest(), Peek());
        e := InfixRule(e.value, level);
      }
      if !hadError {
        NothingAtEnd(Rest(), Peek());
        AtEnd(e.value, Rest(), level, d);
      }
    }

    /** The prefix rule of the next token: an atom, grouping or unary. */
    method PrefixRule(level: nat) returns (e: Option<Expr>)
      requires Valid() && !hadError && level >= 1 && 1 <= depth <= MAX_DEPTH
      modifies this
      ensures Valid() && depth == old(depth)
      ensures hadError ==> Parse(old(Rest()), level, old(depth) - 1).None?
      ensures !hadError ==>
                e.Some? && current > old(current)
                && Parse(old(Rest()), level, old(depth) - 1) == Infixes(e.value, Rest(), level, depth)
      decreases |tokens| - current, 0
    {
      hide Parse, Infixes, InfixPrec;
      if current == |tokens| {
        NoInput(level, depth - 1);
        hadError := true;
        return None;
      }
      ParseTurn(Rest(), level, depth - 1);
      var t := Advance();
      if t.Name? {
        e := Some(Scalar(t.name));
      } else if t.Num? {
        e := Some(Number(t.digits));
      } else if t.LParen? {
        e := Grouping();
      } else if t.Sym? && IsPrefix(t.op) {
        e := ParsePrecedence(UNARY);
        if !hadError { e := Some(Prefix(t.op, e.value)); }
      } else {
        hadError := true;
        e := None;
      }
    }

    /** An expression up to the closing parenthesis. */
    method Grouping() returns (e: Option<Expr>)
      requires Valid() && !hadError && depth >= 1
      modifies this
      ensures Valid() && depth == old(depth)
      ensures var r := Parse(old(Rest()), ASSIGNMENT, old(depth));
              if r.None? || r.value.rest == [] || r.value.rest[0] != RParen then hadError
              else && !hadError && Rest() == r.value.rest[1..] && e == Some(Grouped(r.value.e, Rest()))
                   && current > old(current)
      decreases |tokens| - current, 3
    {
      hide Parse;
      e := ParsePrecedence(ASSIGNMENT);
      if hadError { return; }
      if Peek() != RParen {
        hadError := true;
        return;
      }
      var paren := Advance();
      var next := Peek();
      if next.Sym? && next.op.Assigning? && e.value.Scalar? {
        e := Some(Tuple(e.value.name));
      }
    }

    /** The infix rule of the next token: assignment, postfix, binary or logical. */
    method InfixRule(left: Expr, level: nat) returns (e: Option<Expr>)
      requires Valid() && !hadError && 1 <= level <= NextPrec(Rest()) && depth >= 1
      modifies this
      ensures Valid() && depth == old(depth)
      ensures hadError ==> Infixes(left, old(Rest()), level, old(depth)).None?
      ensures !hadError ==>
                e.Some? && current > old(current)
                && Infixes(left, old(Rest()), level, old(depth)) == Infixes(e.value, Rest(), level, depth)
      decreases |tokens| - current, 0
    {
      hide Parse, Infixes;
      InfixTurn(left, Rest(), level, depth);
      var t := Advance();
      e := None;
      if t.Sym? && t.op.Assigning? {
        e := ParsePrecedence(ASSIGNMENT);
        if !hadError { e := Some(Assign(t.op.kind, left, e.value)); }
      } else if t.Sym? && IsStep(t.op) {
        e := Some(Postfix(t.op, left));
      } else if t.Sym? && IsBinary(t.op) {
        e := ParsePrecedence(OpPrec(t.op) + 1);
        if !hadError { e := Some(Binop(t.op, left, e.value)); }
      } else {
        hadError := true;
      }
    }
  }

  lemma NothingAtEnd(rest: seq<Tok>, next: Tok)
    requires next == if rest == [] then Other else rest[0]
    ensures NextPrec(rest) == InfixPrec(next)
  {
  }

  lemma NoInput(level: nat, depth: nat)
    ensures Parse([], level, depth).None?
  {
  }

  /** A whole expression: parsed to the end of the input or not at all. */
  method ParseExpression(tokens: seq<Tok>) returns (e: Option<Expr>)
    ensures e == ParseAll(tokens)
  {
    var parser := new Parser(tokens);
    e := parser.ParsePrecedence(ASSIGNMENT);
    if parser.hadError || parser.current < |tokens| {
      e := None;
    }
  }
}
