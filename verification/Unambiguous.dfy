/** An expression and the tokens of one of its readings determine that reading. */
module Unambiguous {
  import opened Notation
  import opened Readings

  predicate IsParen(t: Tok) { t.LParen? || t.RParen? }

  /** The number of tokens that are no parentheses. */
  function Core(toks: seq<Tok>): nat {
    if toks == [] then 0 else (if IsParen(toks[0]) then 0 else 1) + Core(toks[1..])
  }

  /** Opening minus closing parentheses. */
  function Balance(toks: seq<Tok>): int {
    if toks == [] then 0
    else (if toks[0].LParen? then 1 else if toks[0].RParen? then -1 else 0) + Balance(toks[1..])
  }

  /** How deep in parentheses the token with `n` core tokens before it stands. */
  function DepthAt(toks: seq<Tok>, n: nat): int {
    if toks == [] then 0
    else if toks[0].LParen? then 1 + DepthAt(toks[1..], n)
    else if toks[0].RParen? then DepthAt(toks[1..], n) - 1
    else if n == 0 then 0
    else DepthAt(toks[1..], n - 1)
  }

  lemma {:induction false} CoreSum(a: seq<Tok>, b: seq<Tok>)
    ensures Core(a + b) == Core(a) + Core(b) && Balance(a + b) == Balance(a) + Balance(b)
  {
    if a == [] {
      assert a + b == b;
    } else {
      assert (a + b)[1..] == a[1..] + b;
      CoreSum(a[1..], b);
    }
  }

  lemma {:induction false} DepthSkip(a: seq<Tok>, b: seq<Tok>, n: nat)
    ensures DepthAt(a + b, Core(a) + n) == Balance(a) + DepthAt(b, n)
  {
    if a == [] {
      assert a + b == b;
    } else {
      assert (a + b)[1..] == a[1..] + b;
      DepthSkip(a[1..], b, n);
    }
  }

  /** Where the root token of an expression stands among its core tokens. */
  function Anchor(e: Expr): nat {
    match e
    case Assign(_, left, _) => Count(left)
    case Binop(_, left, _) => Count(left)
    case Postfix(_, operand) => Count(operand)
    case _ => 0
  }

  /** The number of core tokens of an expression. */
  function Count(e: Expr): nat {
    match e
    case Assign(_, left, right) => Count(left) + 1 + Count(right)
    case Binop(_, left, right) => Count(left) + 1 + Count(right)
    case Prefix(_, operand) => 1 + Count(operand)
    case Postfix(_, operand) => Count(operand) + 1
    case _ => 1
  }

  /** Trees whose leaves are atoms, whose tuples hold a scalar and stand in no further
      parentheses. */
  predicate Proper(c: Tree) {
    match c
    case Leaf(e) => e.Scalar? || e.Number?
    case Paren(inner) => Proper(inner) && !inner.One?
    case One(inner) => Proper(inner) && Strip(inner).Scalar?
    case Pre(_, inner) => Proper(inner)
    case Post(_, inner) => Proper(inner)
    case Bin(_, left, right) => Proper(left) && Proper(right)
    case Asg(_, left, right) => Proper(left) && Proper(right)
  }

  lemma {:induction false} FittingProper(c: Tree, level: nat)
    requires Fits(c, level)
    ensures Proper(c)
  {
    match c
    case Leaf(_) =>
    case Paren(inner) => FittingProper(inner, ASSIGNMENT);
    case One(inner) => FittingProper(inner, ASSIGNMENT);
    case Pre(_, inner) => FittingProper(inner, UNARY);
    case Post(_, inner) => FittingProper(inner, level);
    case Bin(op, left, right) => FittingProper(left, level); FittingProper(right, OpPrec(op) + 1);
    case Asg(_, left, right) => FittingProper(left, level); FittingProper(right, ASSIGNMENT);
  }

  /** The parentheses around the root. */
  function Outer(c: Tree): nat {
    match c
    case Paren(inner) => 1 + Outer(inner)
    case One(inner) => 1 + Outer(inner)
    case _ => 0
  }

  lemma {:induction false} FlatCounts(c: Tree)
    requires Proper(c)
    ensures Core(Flat(c)) == Count(Strip(c)) && Balance(Flat(c)) == 0
  {
    hide Core, Balance;
    match c
    case Leaf(e) => OneToken(LeafTok(e));
    case Paren(inner) => FlatCounts(inner); InParensCounts(Flat(inner));
    case One(inner) => FlatCounts(inner); InParensCounts(Flat(inner));
    case Pre(op, inner) => FlatCounts(inner); OneToken(Sym(op)); CoreSum([Sym(op)], Flat(inner));
    case Post(op, inner) => FlatCounts(inner); OneToken(Sym(op)); CoreSum(Flat(inner), [Sym(op)]);
    case Bin(op, left, right) =>
      FlatCounts(left);
      FlatCounts(right);
      Around(Flat(left), Sym(op), Flat(right));
    case Asg(kind, left, right) =>
      FlatCounts(left);
      FlatCounts(right);
      Around(Flat(left), Sym(Assigning(kind)), Flat(right));
  }

  lemma OneToken(t: Tok)
    requires !IsParen(t)
    ensures Core([t]) == 1 && Balance([t]) == 0
    ensures forall s: seq<Tok> :: DepthAt([t] + s, 0) == 0
  {
  }

  lemma InParensCounts(a: seq<Tok>)
    ensures Core([LParen] + a + [RParen]) == Core(a) && Balance([LParen] + a + [RParen]) == Balance(a)
  {
    CoreSum([LParen] + a, [RParen]);
    CoreSum([LParen], a);
  }

  lemma Around(a: seq<Tok>, t: Tok, b: seq<Tok>)
    requires !IsParen(t)
    ensures Core(a + [t] + b) == Core(a) + 1 + Core(b) && Balance(a + [t] + b) == Balance(a) + Balance(b)
  {
    CoreSum(a + [t], b);
    CoreSum(a, [t]);
  }

  /** The root token stands as deep as the parentheses around the root. */
  lemma {:induction false} AnchorDepth(c: Tree, s: seq<Tok>)
    requires Proper(c)
    ensures DepthAt(Flat(c) + s, Anchor(Strip(c))) == Outer(c)
  {
    hide DepthAt, Core, Balance;
    match c
    case Leaf(e) => OneToken(LeafTok(e));
    case Paren(inner) => AnchorDepth(inner, [RParen] + s); OpenDepth(Flat(inner), s, Anchor(Strip(inner)));
    case One(inner) => AnchorDepth(inner, [RParen] + s); OpenDepth(Flat(inner), s, 0);
    case Pre(op, inner) =>
      OneToken(Sym(op));
      assert Flat(c) + s == [Sym(op)] + (Flat(inner) + s);
    case Post(op, inner) =>
      FlatCounts(inner);
      RootDepth(Flat(inner), Sym(op), [], s);
    case Bin(op, left, right) =>
      FlatCounts(left);
      RootDepth(Flat(left), Sym(op), Flat(right), s);
    case Asg(kind, left, right) =>
      FlatCounts(left);
      RootDepth(Flat(left), Sym(Assigning(kind)), Flat(right), s);
  }

  lemma OpenDepth(a: seq<Tok>, s: seq<Tok>, n: nat)
    ensures DepthAt([LParen] + a + [RParen] + s, n) == 1 + DepthAt(a + ([RParen] + s), n)
  {
    var toks := [LParen] + a + [RParen] + s;
    assert toks[1..] == a + ([RParen] + s);
  }

  lemma RootDepth(a: seq<Tok>, t: Tok, b: seq<Tok>, s: seq<Tok>)
    requires !IsParen(t)
    ensures DepthAt(a + [t] + b + s, Core(a)) == Balance(a)
    ensures a + [t] + [] + s == a + [t] + s
  {
    Regroup(a, t, b, s);
    DepthSkip(a, [t] + (b + s), 0);
  }

  /** Two ways to cut a token list at a core token with equally many core tokens before
      it are the same cut. */
  lemma {:induction false} SameCut(a: seq<Tok>, t: Tok, b: seq<Tok>, a': seq<Tok>, t': Tok, b': seq<Tok>)
    requires a + ([t] + b) == a' + ([t'] + b') && !IsParen(t) && !IsParen(t') && Core(a) == Core(a')
    ensures a == a' && t == t' && b == b'
    decreases |a|
  {
    HeadOf(a, t, b);
    HeadOf(a', t', b');
    if a == [] && a' == [] {
      assert (a + ([t] + b))[1..] == b && (a' + ([t'] + b'))[1..] == b';
    } else if a != [] && a' != [] {
      SameCut(a[1..], t, b, a'[1..], t', b');
      assert a == [a[0]] + a[1..] && a' == [a'[0]] + a'[1..];
    }
  }

  lemma HeadOf(a: seq<Tok>, t: Tok, b: seq<Tok>)
    ensures var s := a + ([t] + b);
            && s[0] == (if a == [] then t else a[0])
            && (a != [] ==> s[1..] == a[1..] + ([t] + b))
    ensures a != [] && Core(a) == 0 ==> IsParen(a[0])
    ensures a != [] ==> Core(a) == (if IsParen(a[0]) then 0 else 1) + Core(a[1..])
  {
  }

  lemma {:induction false} TupleIsOne(c: Tree)
    requires Proper(c) && Strip(c).Tuple?
    ensures c.One?
  {
    if c.Paren? { TupleIsOne(c.inner); }
  }

  lemma SameInner(inner: Tree, s: seq<Tok>, inner': Tree, s': seq<Tok>)
    requires [LParen] + Flat(inner) + [RParen] + s == [LParen] + Flat(inner') + [RParen] + s'
    ensures Flat(inner) + ([RParen] + s) == Flat(inner') + ([RParen] + s')
  {
    Inside(Flat(inner), s);
    Inside(Flat(inner'), s');
  }

  lemma Inside(a: seq<Tok>, s: seq<Tok>)
    ensures ([LParen] + a + [RParen] + s)[1..] == a + ([RParen] + s)
  {
  }

  /** The same root token cuts both readings at the same place. */
  lemma CutAt(l: Tree, t: Tok, r: seq<Tok>, s: seq<Tok>, l': Tree, r': seq<Tok>, s': seq<Tok>)
    requires Proper(l) && Proper(l') && Strip(l) == Strip(l') && !IsParen(t)
    requires Flat(l) + [t] + r + s == Flat(l') + [t] + r' + s'
    ensures Flat(l) == Flat(l') && r + s == r' + s'
  {
    FlatCounts(l);
    FlatCounts(l');
    Regroup(Flat(l), t, r, s);
    Regroup(Flat(l'), t, r', s');
    SameCut(Flat(l), t, r + s, Flat(l'), t, r' + s');
  }

  /** There is one reading. */
  lemma {:induction false} OneReading(c: Tree, s: seq<Tok>, c': Tree, s': seq<Tok>)
    requires Proper(c) && Proper(c') && Strip(c) == Strip(c') && Flat(c) + s == Flat(c') + s'
    ensures c == c'
    decreases c
  {
    AnchorDepth(c, s);
    AnchorDepth(c', s');
    assert Outer(c) == Outer(c');
    match c
    case Leaf(e) =>
    case Paren(inner) =>
      if Strip(c).Tuple? { TupleIsOne(c); }
      SameInner(inner, s, c'.inner, s');
      OneReading(inner, [RParen] + s, c'.inner, [RParen] + s');
    case One(inner) =>
      TupleIsOne(c');
      SameInner(inner, s, c'.inner, s');
      OneReading(inner, [RParen] + s, c'.inner, [RParen] + s');
    case Pre(op, inner) =>
      assert (Flat(c) + s)[1..] == Flat(inner) + s;
      assert (Flat(c') + s')[1..] == Flat(c'.inner) + s';
      OneReading(inner, s, c'.inner, s');
    case Post(op, inner) =>
      assert Flat(c) == Flat(inner) + [Sym(op)] + [] && Flat(c') == Flat(c'.inner) + [Sym(op)] + [];
      CutAt(inner, Sym(op), [], s, c'.inner, [], s');
      OneReading(inner, [], c'.inner, []);
    case Bin(op, left, right) =>
      CutAt(left, Sym(op), Flat(right), s, c'.left, Flat(c'.right), s');
      OneReading(left, [], c'.left, []);
      OneReading(right, s, c'.right, s');
    case Asg(kind, left, right) =>
      CutAt(left, Sym(Assigning(kind)), Flat(right), s, c'.left, Flat(c'.right), s');
      OneReading(left, [], c'.left, []);
      OneReading(right, s, c'.right, s');
  }
}
