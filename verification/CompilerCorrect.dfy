/** The compiler theorem for whole function bodies, in both directions: the machine
    returns, fails or runs forever exactly when the evaluator finishes, stops on an
    error or exhausts every amount of fuel. */
module CompilerCorrect {
  import opened Values
  import opened Instructions
  import opened Syntax
  import opened Machine
  import opened Codegen
  import opened CodeLayout
  import opened Evaluator
  import opened ExprSimulation
  import opened StmtSimulation

  // ----- the pool holds literals and names only -----

  lemma ConstantPool(pool: seq<Value>, v: LiteralValue)
    requires LiteralPool(pool)
    ensures LiteralPool(WithConstant(pool, v))
  {
    ConstantKept(pool, v);
  }

  lemma {:induction false} ExprPool(e: Expr, pool: seq<Value>, nested: bool)
    requires LiteralPool(pool)
    ensures LiteralPool(CompileExpr(e, pool, nested).pool)
    decreases e, 1
  {
    hide WithConstant, LiteralPool, Encode;
    match e
    case Literal(v) => ConstantPool(pool, v);
    case Variable(name) => ConstantPool(pool, Text(name));
    case Binop(_, left, right) =>
      ExprPool(right, pool, nested);
      ExprPool(left, CompileExpr(right, pool, nested).pool, nested);
    case Bridge(name, _, left, right) =>
      var l := CompileExpr(left, pool, nested);
      ExprPool(left, pool, nested);
      ExprPool(right, l.pool, nested);
      ConstantPool(CompileExpr(right, l.pool, nested).pool, Text(name));
    case And(left, right) =>
      ExprPool(left, pool, nested);
      ExprPool(right, CompileExpr(left, pool, nested).pool, nested);
    case Or(left, right) =>
      ExprPool(left, pool, nested);
      ExprPool(right, CompileExpr(left, pool, nested).pool, nested);
    case Not(operand) => ExprPool(operand, pool, nested);
    case Minus(operand) => ExprPool(operand, pool, nested);
    case Iff(args) => if args != [] { IffPool(args, pool, nested); }
    case Assign(name, right) =>
      ExprPool(right, pool, nested);
      ConstantPool(CompileExpr(right, pool, nested).pool, Text(name));
    case OpAssign(name, _, right) =>
      ConstantPool(pool, Text(name));
      var l := LoadCode(name, pool, nested);
      ExprPool(right, l.pool, nested);
      ConstantPool(CompileExpr(right, l.pool, nested).pool, Text(name));
    case Bump(name, _) =>
      ConstantPool(pool, Text(name));
      ConstantPool(LoadCode(name, pool, nested).pool, Text(name));
    case Call(name, args) =>
      ConstantPool(pool, Text(name));
      var l := LoadCode(name, pool, nested);
      ArgsPool(args, l.pool, nested);
      ConstantPool(CompileArgs(args, l.pool, nested).pool, Text(name));
    case _ =>
  }

  lemma {:induction false} IffPool(args: seq<Expr>, pool: seq<Value>, nested: bool)
    requires LiteralPool(pool) && args != []
    ensures LiteralPool(CompileExpr(Iff(args), pool, nested).pool)
    decreases args, 2
  {
    hide WithConstant, LiteralPool, Encode, CompileArgs;
    var c := IffTest(args, pool, nested);
    if IsPredicateShape(args[0]) { ExprPool(args[0], pool, nested); }
    var t := IffFirst(args, c.pool, nested);
    if |args| >= 2 { ExprPool(args[1], c.pool, nested); } else { ConstantPool(c.pool, Int(1)); }
    if |args| >= 3 { ExprPool(args[2], t.pool, nested); }
    assert CompileExpr(Iff(args), pool, nested) == Branch(c, t, IffSecond(args, t.pool, nested));
  }

  lemma {:induction false} ArgsPool(args: seq<Expr>, pool: seq<Value>, nested: bool)
    requires LiteralPool(pool)
    ensures LiteralPool(CompileArgs(args, pool, nested).pool)
    decreases args, 2
  {
    hide WithConstant, LiteralPool, Encode, CompileExpr;
    if args != [] {
      var last := args[|args| - 1];
      if last.Variable? { ConstantPool(pool, Text(last.name)); } else { ExprPool(last, pool, nested); }
      ArgsPool(args[..|args| - 1], CompileArg(last, pool, nested).pool, nested);
    }
  }

  lemma {:induction false} EachPool(es: seq<Expr>, pool: seq<Value>, nested: bool)
    requires LiteralPool(pool)
    ensures LiteralPool(CompileEach(es, pool, nested).pool)
  {
    hide WithConstant, LiteralPool, Encode, CompileExpr;
    if es != [] {
      ExprPool(es[0], pool, nested);
      EachPool(es[1..], CompileExpr(es[0], pool, nested).pool, nested);
    }
  }

  lemma {:induction false} BlockPool(body: seq<Stmt>, pool: seq<Value>, nested: bool)
    requires LiteralPool(pool)
    ensures LiteralPool(CompileBlock(body, pool, nested).pool)
    decreases body, 0
  {
    hide WithConstant, LiteralPool, Encode, CompileStmt;
    if body != [] {
      StmtPool(body[0], pool, nested);
      BlockPool(body[1..], CompileStmt(body[0], pool, nested).pool, nested);
    }
  }

  lemma {:induction false} PassPool(body: seq<Stmt>, increment: seq<Expr>, pool: seq<Value>, nested: bool)
    requires LiteralPool(pool)
    ensures LiteralPool(PassCode(body, increment, pool, nested).pool)
    decreases body, 1
  {
    hide WithConstant, LiteralPool, Encode, CompileBlock, CompileEach;
    BlockPool(body, pool, nested);
    EachPool(increment, CompileBlock(body, pool, nested).pool, nested);
  }

  lemma {:induction false} StmtPool(s: Stmt, pool: seq<Value>, nested: bool)
    requires LiteralPool(pool)
    ensures LiteralPool(CompileStmt(s, pool, nested).pool)
    decreases s, 1
  {
    hide WithConstant, LiteralPool, Encode, CompileExpr, CompileBlock, CompileEach, PassCode;
    match s
    case ExprStmt(e) => ExprPool(e, pool, nested);
    case Empty =>
    case If(cond, thenBody, elseBody) =>
      var c := CompileExpr(cond, pool, nested);
      ExprPool(cond, pool, nested);
      BlockPool(thenBody, c.pool, nested);
      BlockPool(elseBody, CompileBlock(thenBody, c.pool, nested).pool, nested);
    case While(cond, body) =>
      ExprPool(cond, pool, nested);
      BlockPool(body, CompileExpr(cond, pool, nested).pool, nested);
    case For(init, cond, increment, body) =>
      var i := CompileEach(init, pool, nested);
      EachPool(init, pool, nested);
      ExprPool(cond, i.pool, nested);
      PassPool(body, increment, CompileExpr(cond, i.pool, nested).pool, nested);
    case Forever(init, increment, body) =>
      EachPool(init, pool, nested);
      PassPool(body, increment, CompileEach(init, pool, nested).pool, nested);
    case Foreach(index, value, generator, body) =>
      var g := CompileExpr(generator, pool, nested);
      ExprPool(generator, pool, nested);
      ConstantPool(g.pool, Int(0));
      var start := PushConstantCode(g.pool, Int(0)).pool;
      ConstantPool(start, Text(value));
      if index.Some? { ConstantPool(WithConstant(start, Text(value)), Text(index.value)); }
      BlockPool(body, BindCode(index, value, start).pool, nested);
  }

  // ----- whole bodies -----

  function Compiled(body: seq<Stmt>, nested: bool, env: Env): Program {
    Program(CompileBody(body, nested).bytes, CompileBody(body, nested).pool, env)
  }

  /** No compile error, every pool index fits 16 bits, and the value stack has room
      for the deepest expression. */
  ghost predicate Runnable(body: seq<Stmt>, nested: bool, below: seq<Value>) {
    && CompileBody(body, nested).ok
    && |CompileBody(body, nested).pool| <= SHORT_MAX + 1
    && Room(below, [], Max(1, NeedBlock(body)))
  }

  ghost predicate EndsWith(p: Program, m: Machine, o: Outcome) {
    exists n: nat :: Run(p, m, n) == o
  }

  ghost predicate Diverges(p: Program, m: Machine) {
    forall n: nat :: Run(p, m, n).Running?
  }

  ghost predicate Evaluates(body: seq<Stmt>, nested: bool, env: Env, st: Store, r: Exit) {
    exists fuel: nat :: ExitAt(body, nested, env, st, fuel) == r
  }

  /** No amount of fuel is enough. */
  ghost predicate NeverFinishes(body: seq<Stmt>, nested: bool, env: Env, st: Store) {
    forall fuel: nat :: ExitAt(body, nested, env, st, fuel) == OutOfFuel
  }

  function ExitAt(body: seq<Stmt>, nested: bool, env: Env, st: Store, fuel: nat): Exit {
    EvalBlock(env, nested, body, st, fuel)
  }

  /** One direction: what the machine does follows what the evaluator does. */
  lemma BodyFollows(body: seq<Stmt>, nested: bool, env: Env, below: seq<Value>, st: Store, fuel: nat)
    returns (n: nat)
    requires Runnable(body, nested, below)
    ensures var o := Run(Compiled(body, nested, env), Config(0, below, st, []), n);
            match ExitAt(body, nested, env, st, fuel)
            case Finished(after) => o == Returned(Null, after)
            case Stuck => o == Failed
            case OutOfFuel => n >= fuel && o.Running?
  {
    hide Run, Config, CompileBlock, EvalBlock, NeedBlock, Encode, LiteralPool;
    var p := Compiled(body, nested, env);
    var c := CompileBlock(body, [], nested);
    assert LiteralPool([]) by { NoConstants(); }
    BlockPool(body, [], nested);
    var start := Config(0, below, st, []);
    BodyPlaced(body, nested, env);
    n := BlockRuns(p, nested, body, [], 0, below, st, [], fuel);
    var r := EvalBlock(env, nested, body, st, fuel);
    if r.Finished? {
      var at := |c.bytes|;
      Plain(p, at, below, r.st, [], PushNull, r.st, [] + [Null]);
      SimpleLengths(Add);
      ReturnStep(p, at + 1, below, r.st, Null);
      Join(p, start, n, Config(at, below, r.st, []), 1);
      Join(p, start, n + 1, Config(at + 1, below, r.st, [] + [Null]), 1);
      n := n + 2;
    }
  }

  lemma NoConstants()
    ensures LiteralPool([])
  {
  }

  lemma BodyPlaced(body: seq<Stmt>, nested: bool, env: Env)
    requires CompileBody(body, nested).ok && |CompileBody(body, nested).pool| <= SHORT_MAX + 1
    requires LiteralPool(CompileBlock(body, [], nested).pool)
    ensures var p := Compiled(body, nested, env);
            var c := CompileBlock(body, [], nested);
            && Placed(p, 0, c)
            && At(p.code, |c.bytes|, Encode(PushNull))
            && At(p.code, |c.bytes| + 1, Encode(Return))
  {
    hide CompileBlock, LiteralPool;
    var p := Compiled(body, nested, env);
    assert p.code[0..0 + |p.code|] == p.code;
    BodyLayout(p.code, 0, CompileBlock(body, [], nested));
  }

  lemma ReturnStep(p: Program, ip: nat, below: seq<Value>, st: Store, v: Value)
    requires At(p.code, ip, Encode(Return))
    ensures Run(p, Config(ip, below, st, [] + [v]), 1) == Returned(v, st)
  {
    hide Run;
    StepConfig(p, ip, below, st, [] + [v], Return);
  }

  /** A run that is over stays over. */
  lemma OverStaysOver(p: Program, m: Machine, n: nat, k: nat)
    requires !Run(p, m, n).Running? && n <= k
    ensures Run(p, m, k) == Run(p, m, n)
  {
    hide Run;
    RunCompose(p, m, n, k - n);
  }

  /** Two ends of one run are the same end. */
  lemma OneEnd(p: Program, m: Machine, n: nat, k: nat)
    requires !Run(p, m, n).Running? && !Run(p, m, k).Running?
    ensures Run(p, m, n) == Run(p, m, k)
  {
    hide Run;
    OverStaysOver(p, m, if n <= k then n else k, if n <= k then k else n);
  }

  /** The compiled body returns with a store exactly when the evaluator finishes with
      it, fails exactly when the evaluator stops on an error, and runs forever exactly
      when no amount of fuel is enough. */
  lemma CompiledCodeAgrees(body: seq<Stmt>, nested: bool, env: Env, below: seq<Value>, st: Store)
    requires Runnable(body, nested, below)
    ensures var p := Compiled(body, nested, env);
            var m := Config(0, below, st, []);
            && (forall v, after :: EndsWith(p, m, Returned(v, after)) <==>
                 v == Null && Evaluates(body, nested, env, st, Finished(after)))
            && (EndsWith(p, m, Failed) <==> Evaluates(body, nested, env, st, Stuck))
            && (Diverges(p, m) <==> NeverFinishes(body, nested, env, st))
  {
    hide Run, Config, ExitAt, Runnable, Compiled;
    var p := Compiled(body, nested, env);
    var m := Config(0, below, st, []);
    forall fuel: nat | ExitAt(body, nested, env, st, fuel) != OutOfFuel
      ensures EndsWith(p, m, MachineEnd(ExitAt(body, nested, env, st, fuel)))
    {
      var n := BodyFollows(body, nested, env, below, st, fuel);
    }
    forall n: nat | !Run(p, m, n).Running?
      ensures ExitAt(body, nested, env, st, n + 1) != OutOfFuel
      ensures MachineEnd(ExitAt(body, nested, env, st, n + 1)) == Run(p, m, n)
    {
      var k := BodyFollows(body, nested, env, below, st, n + 1);
      if ExitAt(body, nested, env, st, n + 1) == OutOfFuel {
        OverStaysOver(p, m, n, k);
      } else {
        OneEnd(p, m, n, k);
      }
    }
    forall n: nat, k: nat | !Run(p, m, n).Running? && !Run(p, m, k).Running?
      ensures Run(p, m, n) == Run(p, m, k)
    {
      OneEnd(p, m, n, k);
    }
  }

  function MachineEnd(r: Exit): Outcome {
    match r
    case Finished(st) => Returned(Null, st)
    case _ => Failed
  }
}
