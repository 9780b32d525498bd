/** Compiled code computes what the evaluator says: statements, loops and whole
    function bodies, including runs that never end. */
module StmtSimulation {
  import opened Values
  import opened Instructions
  import opened Syntax
  import opened Machine
  import opened Codegen
  import opened CodeLayout
  import opened Unfolding
  import opened Evaluator
  import opened ExprSimulation

  /** Operand slots a statement uses at most above the ones it finds. */
  function NeedStmt(s: Stmt): nat
    decreases s, 1
  {
    match s
    case ExprStmt(e) => Need(e)
    case Empty => 0
    case If(cond, thenBody, elseBody) => Max(Need(cond), Max(NeedBlock(thenBody), NeedBlock(elseBody)))
    case While(cond, body) => Max(Need(cond), NeedBlock(body))
    case For(init, cond, increment, body) =>
      Max(NeedAny(init), Max(Need(cond), Max(NeedBlock(body), NeedAny(increment))))
    case Forever(init, increment, body) => Max(NeedAny(init), Max(NeedBlock(body), NeedAny(increment)))
    case Foreach(_, _, generator, body) => Max(Need(generator), 2 + Max(2, NeedBlock(body)))
  }

  function NeedBlock(body: seq<Stmt>): nat
    decreases body, 0
  {
    if body == [] then 0 else Max(NeedStmt(body[0]), NeedBlock(body[1..]))
  }

  /** What `n` steps from `ip` do for a statement whose evaluation ended with `r`: it
      ends at `next` with the operands it found, it fails, or, when the fuel ran out,
      it is still going after as many steps as there was fuel. */
  ghost predicate Ends(p: Program, ip: nat, next: nat, below: seq<Value>, st: Store, temps: seq<Value>,
                       r: Exit, fuel: nat, n: nat)
  {
    var o := Run(p, Config(ip, below, st, temps), n);
    match r
    case Finished(after) => o == Running(Config(next, below, after, temps))
    case Stuck => o == Failed
    case OutOfFuel => n >= fuel && o.Running?
  }

  // ----- glue: runs put one behind the other -----

  /** A run that has reached `mid`, continued by what happens from there. */
  lemma Continue1(p: Program, ip: nat, mid: nat, next: nat, below: seq<Value>, st: Store, temps: seq<Value>,
                  st1: Store, n: nat, r: Exit, fuel: nat, k: nat)
    requires Run(p, Config(ip, below, st, temps), n) == Running(Config(mid, below, st1, temps))
    requires Ends(p, mid, next, below, st1, temps, r, fuel, k)
    ensures Ends(p, ip, next, below, st, temps, r, fuel, n + k)
  {
    hide Run, Config;
    Join(p, Config(ip, below, st, temps), n, Config(mid, below, st1, temps), k);
  }

  /** An expression and the POP behind it. */
  lemma DropResult(p: Program, ip: nat, at: nat, below: seq<Value>, st: Store, temps: seq<Value>, r: Result, n: nat)
    returns (total: nat)
    requires Pushes(p, ip, at, below, st, temps, r, n)
    requires At(p.code, at, Encode(Pop)) && Room(below, temps, 1)
    ensures Ends(p, ip, at + 1, below, st, temps, ExitOf(r), 0, total)
  {
    hide Run, Config, Encode, At;
    total := n;
    if r.Ok? {
      PopStep(p, at, below, r.st, temps, r.v);
      Join(p, Config(ip, below, st, temps), n, Config(at, below, r.st, temps + [r.v]), 1);
      total := n + 1;
    }
  }

  function ExitOf(r: Result): Exit {
    match r
    case Error => Stuck
    case Ok(_, st) => Finished(st)
  }

  /** The exit of one part followed by another. */
  function AndThen(first: Exit, second: Exit): Exit {
    if first.Finished? then second else first
  }

  lemma Sequence(p: Program, ip: nat, mid: nat, next: nat, below: seq<Value>, st: Store, temps: seq<Value>,
                 first: Exit, n: nat, second: Exit, k: nat, fuel: nat)
    returns (total: nat)
    requires Ends(p, ip, mid, below, st, temps, first, fuel, n)
    requires first.Finished? ==> Ends(p, mid, next, below, first.st, temps, second, fuel, k)
    ensures Ends(p, ip, next, below, st, temps, AndThen(first, second), fuel, total)
  {
    hide Run, Config;
    total := n;
    if first.Finished? {
      Continue1(p, ip, mid, next, below, st, temps, first.st, n, second, fuel, k);
      total := n + k;
    }
  }

  // ----- lists of expressions and statements -----

  /** For-loop initialisers and increments. */
  lemma {:induction false} EachRuns(p: Program, nested: bool, es: seq<Expr>, pool: seq<Value>, ip: nat,
                                    below: seq<Value>, st: Store, temps: seq<Value>)
    returns (n: nat)
    requires Placed(p, ip, CompileEach(es, pool, nested)) && Room(below, temps, NeedAny(es))
    ensures Ends(p, ip, ip + |CompileEach(es, pool, nested).bytes|, below, st, temps,
                 EvalEach(p.env, nested, es, st), 0, n)
    ensures !EvalEach(p.env, nested, es, st).OutOfFuel?
    decreases |es|
  {
    hide Run, Config, Encode, At, Placed, CompileExpr, EvalExpr, Plus, Then, Need, Pushes;
    if es == [] {
      n := 0;
      RunZero(p, Config(ip, below, st, temps));
    } else {
      var c := CompileExpr(es[0], pool, nested);
      var first := Plus(c, Pop);
      var rest := CompileEach(es[1..], first.pool, nested);
      assert c.pool == first.pool && |first.bytes| == |c.bytes| + 1 by { PlusPop(c); }
      assert CompileEach(es, pool, nested) == Then(first, rest);
      EachParts(p, ip, c, rest);
      n := ExprRuns(p, nested, es[0], pool, ip, below, st, temps);
      var r := EvalExpr(p.env, nested, es[0], st);
      n := DropResult(p, ip, ip + |c.bytes|, below, st, temps, r, n);
      var k := 0;
      if r.Ok? {
        k := EachRuns(p, nested, es[1..], first.pool, ip + |first.bytes|, below, r.st, temps);
      }
      n := Sequence(p, ip, ip + |first.bytes|, ip + |first.bytes| + |rest.bytes|, below, st, temps,
                    ExitOf(r), n, EvalEach(p.env, nested, es[1..], if r.Ok? then r.st else st), k, 0);
      assert |Then(first, rest).bytes| == |first.bytes| + |rest.bytes| by { ThenLength(first, rest); }
    }
  }

  lemma PlusPop(c: Code)
    ensures Plus(c, Pop).pool == c.pool && |Plus(c, Pop).bytes| == |c.bytes| + 1
  {
  }

  lemma ThenLength(a: Code, b: Code)
    ensures |Then(a, b).bytes| == |a.bytes| + |b.bytes| && Then(a, b).pool == b.pool
  {
  }

  lemma EachParts(p: Program, ip: nat, c: Code, rest: Code)
    requires Placed(p, ip, Then(Plus(c, Pop), rest)) && c.pool <= rest.pool
    ensures Placed(p, ip, c) && At(p.code, ip + |c.bytes|, Encode(Pop))
    ensures Placed(p, ip + |c.bytes| + 1, rest)
  {
    hide At, Pooled;
    PlacedParts(p, ip, Plus(c, Pop), rest);
    PlacedPlus(p, ip, c, Pop);
  }

  /** The statements of a block, one after the other. */
  lemma {:induction false} BlockRuns(p: Program, nested: bool, body: seq<Stmt>, pool: seq<Value>, ip: nat,
                                     below: seq<Value>, st: Store, temps: seq<Value>, fuel: nat)
    returns (n: nat)
    requires Placed(p, ip, CompileBlock(body, pool, nested)) && Room(below, temps, NeedBlock(body))
    ensures Ends(p, ip, ip + |CompileBlock(body, pool, nested).bytes|, below, st, temps,
                 EvalBlock(p.env, nested, body, st, fuel), fuel, n)
    decreases fuel, body, 0
  {
    hide Run, Config, Encode, At, Placed, CompileStmt, EvalStmt, Then, NeedStmt;
    if body == [] {
      n := 0;
      RunZero(p, Config(ip, below, st, temps));
    } else {
      var first := CompileStmt(body[0], pool, nested);
      var rest := CompileBlock(body[1..], first.pool, nested);
      assert CompileBlock(body, pool, nested) == Then(first, rest);
      PlacedParts(p, ip, first, rest);
      var r := EvalStmt(p.env, nested, body[0], st, fuel);
      n := StmtRuns(p, nested, body[0], pool, ip, below, st, temps, fuel);
      var k := 0;
      if r.Finished? {
        k := BlockRuns(p, nested, body[1..], first.pool, ip + |first.bytes|, below, r.st, temps, fuel);
      }
      n := Sequence(p, ip, ip + |first.bytes|, ip + |first.bytes| + |rest.bytes|, below, st, temps, r, n,
                    EvalBlock(p.env, nested, body[1..], if r.Finished? then r.st else st, fuel), k, fuel);
      ThenLength(first, rest);
    }
  }

  // ----- statements -----

  /** Every statement leaves the operand stack as it found it and the store the
      evaluator computes; errors and endless runs are matched too. */
  lemma {:induction false} StmtRuns(p: Program, nested: bool, s: Stmt, pool: seq<Value>, ip: nat,
                                    below: seq<Value>, st: Store, temps: seq<Value>, fuel: nat)
    returns (n: nat)
    requires Placed(p, ip, CompileStmt(s, pool, nested)) && Room(below, temps, NeedStmt(s))
    ensures Ends(p, ip, ip + |CompileStmt(s, pool, nested).bytes|, below, st, temps,
                 EvalStmt(p.env, nested, s, st, fuel), fuel, n)
    decreases fuel, s, 4
  {
    hide Run, Config, CompileStmt, EvalStmt, NeedStmt, Placed, Ends;
    match s
    case ExprStmt(_) => n := SimpleStmtRuns(p, nested, s, pool, ip, below, st, temps, fuel);
    case Empty => n := SimpleStmtRuns(p, nested, s, pool, ip, below, st, temps, fuel);
    case If(_, _, _) => n := IfRuns(p, nested, s, pool, ip, below, st, temps, fuel);
    case While(_, _) => n := WhileRuns(p, nested, s, pool, ip, below, st, temps, fuel);
    case For(_, _, _, _) => n := ForRuns(p, nested, s, pool, ip, below, st, temps, fuel);
    case Forever(_, _, _) => n := ForeverRuns(p, nested, s, pool, ip, below, st, temps, fuel);
    case Foreach(_, _, _, _) => n := ForeachStmtRuns(p, nested, s, pool, ip, below, st, temps, fuel);
  }

  lemma {:induction false} SimpleStmtRuns(p: Program, nested: bool, s: Stmt, pool: seq<Value>, ip: nat,
                                          below: seq<Value>, st: Store, temps: seq<Value>, fuel: nat)
    returns (n: nat)
    requires s.ExprStmt? || s.Empty?
    requires Placed(p, ip, CompileStmt(s, pool, nested)) && Room(below, temps, NeedStmt(s))
    ensures Ends(p, ip, ip + |CompileStmt(s, pool, nested).bytes|, below, st, temps,
                 EvalStmt(p.env, nested, s, st, fuel), fuel, n)
  {
    hide Run, Config, CompileExpr, EvalExpr, At, Pooled, Need;
    if s.ExprStmt? {
      PlacedPlus(p, ip, CompileExpr(s.e, pool, nested), Pop);
      n := ExprRuns(p, nested, s.e, pool, ip, below, st, temps);
      n := DropResult(p, ip, ip + |CompileExpr(s.e, pool, nested).bytes|, below, st, temps,
                      EvalExpr(p.env, nested, s.e, st), n);
    } else {
      Plain(p, ip, below, st, temps, Nop, st, temps);
      n := 1;
    }
  }

  /** The condition has pushed its value at `a`; its test leads to `into`. */
  lemma AfterTest(p: Program, ip: nat, a: nat, into: nat, next: nat, below: seq<Value>, st: Store, temps: seq<Value>,
                  test: Result, n: nat, r: Exit, fuel: nat, k: nat)
    returns (total: nat)
    requires test.Ok? && Pushes(p, ip, a, below, st, temps, test, n)
    requires Run(p, Config(a, below, test.st, temps + [test.v]), 2) == Running(Config(into, below, test.st, temps))
    requires Ends(p, into, next, below, test.st, temps, r, fuel, k)
    ensures Ends(p, ip, next, below, st, temps, r, fuel + 2, total)
  {
    hide Run, Config;
    Join(p, Config(ip, below, st, temps), n, Config(a, below, test.st, temps + [test.v]), 2);
    Continue1(p, ip, into, next, below, st, temps, test.st, n + 2, r, fuel, k);
    total := n + 2 + k;
  }

  /** An exit of a first branch, and the jump over the second one. */
  lemma EndsThenJump(p: Program, ip: nat, b: nat, below: seq<Value>, st: Store, temps: seq<Value>, r: Exit, fuel: nat,
                     n: nat, distance: Short)
    returns (total: nat)
    requires Ends(p, ip, b, below, st, temps, r, fuel, n)
    requires At(p.code, b, Encode(Jump(distance))) && Room(below, temps, 0)
    ensures Ends(p, ip, b + 3 + distance, below, st, temps, r, fuel, total)
  {
    hide Run, Config, At, Encode;
    total := n;
    if r.Finished? {
      JumpStep(p, b, below, r.st, temps, distance);
      Join(p, Config(ip, below, st, temps), n, Config(b, below, r.st, temps), 1);
      total := n + 1;
    }
  }

  lemma EndsWeaker(p: Program, ip: nat, next: nat, below: seq<Value>, st: Store, temps: seq<Value>, r: Exit,
                   fuel: nat, less: nat, n: nat)
    requires Ends(p, ip, next, below, st, temps, r, fuel, n) && less <= fuel
    ensures Ends(p, ip, next, below, st, temps, r, less, n)
  {
  }

  lemma ErrorEnds(p: Program, ip: nat, a: nat, next: nat, below: seq<Value>, st: Store, temps: seq<Value>, fuel: nat, n: nat)
    requires Pushes(p, ip, a, below, st, temps, Error, n)
    ensures Ends(p, ip, next, below, st, temps, Stuck, fuel, n)
  {
  }

  lemma {:induction false} IfRuns(p: Program, nested: bool, s: Stmt, pool: seq<Value>, ip: nat,
                                  below: seq<Value>, st: Store, temps: seq<Value>, fuel: nat)
    returns (n: nat)
    requires s.If?
    requires Placed(p, ip, CompileStmt(s, pool, nested)) && Room(below, temps, NeedStmt(s))
    ensures Ends(p, ip, ip + |CompileStmt(s, pool, nested).bytes|, below, st, temps,
                 EvalStmt(p.env, nested, s, st, fuel), fuel, n)
    decreases fuel, s, 3
  {
    hide Run, Config, CompileExpr, EvalExpr, CompileBlock, EvalBlock, Placed, At, Encode, Branch, Need, NeedBlock, Pushes, Ends, CompileStmt;
    StmtCode(s, pool, nested);
    var c := CompileExpr(s.cond, pool, nested);
    var t := CompileBlock(s.thenBody, c.pool, nested);
    var f := CompileBlock(s.elseBody, t.pool, nested);
    BranchParts(p, ip, c, t, f);
    var next := ip + |Branch(c, t, f).bytes|;
    var a := ip + |c.bytes|;
    var b := a + 4 + |t.bytes|;
    n := ExprRuns(p, nested, s.cond, pool, ip, below, st, temps);
    var test := EvalExpr(p.env, nested, s.cond, st);
    if test.Error? {
      ErrorEnds(p, ip, a, next, below, st, temps, fuel, n);
      return;
    }
    TestAndPop(p, a, below, test.st, temps, |t.bytes| + 4, test.v);
    var body := if IsFalsy(test.v) then s.elseBody else s.thenBody;
    var r := EvalBlock(p.env, nested, body, test.st, fuel);
    if IsFalsy(test.v) {
      var k := BlockRuns(p, nested, s.elseBody, t.pool, b + 4, below, test.st, temps, fuel);
      n := AfterTest(p, ip, a, b + 4, next, below, st, temps, test, n, r, fuel, k);
    } else {
      var k := BlockRuns(p, nested, s.thenBody, c.pool, a + 4, below, test.st, temps, fuel);
      n := AfterTest(p, ip, a, a + 4, b, below, st, temps, test, n, r, fuel, k);
      n := EndsThenJump(p, ip, b, below, st, temps, r, fuel + 2, n, |f.bytes| + 1);
    }
    EndsWeaker(p, ip, next, below, st, temps, r, fuel + 2, fuel, n);
  }

  // ----- loops -----

  lemma LoopStep(p: Program, ip: nat, below: seq<Value>, st: Store, temps: seq<Value>, distance: nat)
    requires distance <= LOOP_MAX && distance <= ip + 3
    requires At(p.code, ip, Encode(Loop(distance))) && Room(below, temps, 0)
    ensures Run(p, Config(ip, below, st, temps), 1) == Running(Config(ip + 3 - distance, below, st, temps))
  {
    hide Run;
    StepConfig(p, ip, below, st, temps, Loop(distance));
  }

  /** The parts of condition, JUMP_IF_FALSE, POP, body, LOOP, POP. */
  lemma LoopParts(p: Program, ip: nat, c: Code, b: Code)
    requires Placed(p, ip, LoopBlock(c, b)) && c.pool <= b.pool
    ensures |b.bytes| + 4 <= SHORT_MAX && |c.bytes| + |b.bytes| + 7 <= LOOP_MAX
    ensures var a := ip + |c.bytes|;
            && Placed(p, ip, c)
            && At(p.code, a, Encode(JumpIfFalse(|b.bytes| + 4)))
            && At(p.code, a + 3, Encode(Pop))
            && Placed(p, a + 4, b)
            && At(p.code, a + 4 + |b.bytes|, Encode(Loop(|c.bytes| + |b.bytes| + 7)))
            && At(p.code, a + 7 + |b.bytes|, Encode(Pop))
    ensures |LoopBlock(c, b).bytes| == |c.bytes| + |b.bytes| + 8
  {
    hide Encode, Pooled, At;
    PooledPrefix(p, c.pool, b.pool);
    LoopLayout(p.code, ip, c, b);
  }

  function NeedPass(body: seq<Stmt>, increment: seq<Expr>): nat { Max(NeedBlock(body), NeedAny(increment)) }

  /** A loop body followed by its increments. */
  lemma {:induction false} PassRuns(p: Program, nested: bool, body: seq<Stmt>, increment: seq<Expr>, pool: seq<Value>,
                                    ip: nat, below: seq<Value>, st: Store, temps: seq<Value>, fuel: nat)
    returns (n: nat)
    requires Placed(p, ip, PassCode(body, increment, pool, nested)) && Room(below, temps, NeedPass(body, increment))
    ensures Ends(p, ip, ip + |PassCode(body, increment, pool, nested).bytes|, below, st, temps,
                 EvalPass(p.env, nested, body, increment, st, fuel), fuel, n)
    decreases fuel, body, 1
  {
    hide Run, Config, CompileBlock, CompileEach, EvalBlock, EvalEach, Placed, NeedBlock, NeedAny, Then;
    var b := CompileBlock(body, pool, nested);
    var i := CompileEach(increment, b.pool, nested);
    PlacedParts(p, ip, b, i);
    var r := EvalBlock(p.env, nested, body, st, fuel);
    n := BlockRuns(p, nested, body, pool, ip, below, st, temps, fuel);
    var k := 0;
    var r2 := EvalEach(p.env, nested, increment, if r.Finished? then r.st else st);
    if r.Finished? {
      k := EachRuns(p, nested, increment, b.pool, ip + |b.bytes|, below, r.st, temps);
    }
    n := Sequence(p, ip, ip + |b.bytes|, ip + |b.bytes| + |i.bytes|, below, st, temps, r, n, r2, k, fuel);
    ThenLength(b, i);
  }

  /** While and for loops: each turn runs the condition, the body, the increments and
      jumps back; the loop that is never left keeps running. */
  lemma {:induction false} LoopRuns(p: Program, nested: bool, cond: Expr, body: seq<Stmt>, increment: seq<Expr>,
                                    pool: seq<Value>, ip: nat, below: seq<Value>, st: Store, temps: seq<Value>, fuel: nat)
    returns (n: nat)
    requires var c := CompileExpr(cond, pool, nested);
             Placed(p, ip, LoopBlock(c, PassCode(body, increment, c.pool, nested)))
    requires Room(below, temps, Max(Need(cond), NeedPass(body, increment)))
    ensures var c := CompileExpr(cond, pool, nested);
            Ends(p, ip, ip + |LoopBlock(c, PassCode(body, increment, c.pool, nested)).bytes|, below, st, temps,
                 EvalLoop(p.env, nested, cond, body, increment, st, fuel), fuel, n)
    decreases fuel, body, 2
  {
    hide Run, Config, CompileExpr, EvalExpr, PassCode, EvalPass, Placed, At, Encode, LoopBlock, Need, NeedPass, Pushes, Ends;
    var c := CompileExpr(cond, pool, nested);
    var b := PassCode(body, increment, c.pool, nested);
    LoopParts(p, ip, c, b);
    var next := ip + |LoopBlock(c, b).bytes|;
    var a := ip + |c.bytes|;
    if fuel == 0 {
      n := 0;
      NoFuel(p, ip, next, below, st, temps);
      return;
    }
    n := ExprRuns(p, nested, cond, pool, ip, below, st, temps);
    var test := EvalExpr(p.env, nested, cond, st);
    if test.Error? {
      ErrorEnds(p, ip, a, next, below, st, temps, fuel, n);
      return;
    }
    TestAndPop(p, a, below, test.st, temps, |b.bytes| + 4, test.v);
    if IsFalsy(test.v) {
      StandsStill(p, next, below, test.st, temps);
      n := AfterTest(p, ip, a, next, next, below, st, temps, test, n, Finished(test.st), fuel, 0);
      EndsWeaker(p, ip, next, below, st, temps, Finished(test.st), fuel + 2, fuel, n);
      return;
    }
    var r := EvalPass(p.env, nested, body, increment, test.st, fuel);
    var k := PassRuns(p, nested, body, increment, c.pool, a + 4, below, test.st, temps, fuel);
    var k2 := 0;
    if r.Finished? {
      k2 := LoopRuns(p, nested, cond, body, increment, pool, ip, below, r.st, temps, fuel - 1);
    }
    var again := EvalLoop(p.env, nested, cond, body, increment, if r.Finished? then r.st else st, fuel - 1);
    k := BackAgain(p, a + 4, a + 4 + |b.bytes|, ip, next, below, test.st, temps, r, k, again, k2, fuel);
    n := AfterTest(p, ip, a, a + 4, next, below, st, temps, test, n, AndThen(r, again), fuel, k);
    EndsWeaker(p, ip, next, below, st, temps, AndThen(r, again), fuel + 2, fuel, n);
  }

  lemma NoFuel(p: Program, ip: nat, next: nat, below: seq<Value>, st: Store, temps: seq<Value>)
    ensures Ends(p, ip, next, below, st, temps, OutOfFuel, 0, 0)
  {
  }

  lemma StandsStill(p: Program, ip: nat, below: seq<Value>, st: Store, temps: seq<Value>)
    ensures forall fuel: nat :: Ends(p, ip, ip, below, st, temps, Finished(st), fuel, 0)
  {
  }

  /** A pass of the body that ends at a LOOP instruction, and the turns after it. */
  lemma BackAgain(p: Program, into: nat, at: nat, start: nat, next: nat, below: seq<Value>, st: Store, temps: seq<Value>,
                  r: Exit, k: nat, again: Exit, k2: nat, fuel: nat)
    returns (total: nat)
    requires start <= at + 3 && at + 3 - start <= LOOP_MAX
    requires At(p.code, at, Encode(Loop(at + 3 - start))) && Room(below, temps, 0)
    requires Ends(p, into, at, below, st, temps, r, fuel, k)
    requires r.Finished? ==> fuel > 0 && Ends(p, start, next, below, r.st, temps, again, fuel - 1, k2)
    ensures Ends(p, into, next, below, st, temps, AndThen(r, again), fuel, total)
  {
    hide Run, Config, At, Encode;
    total := k;
    if r.Finished? {
      LoopStep(p, at, below, r.st, temps, at + 3 - start);
      Join(p, Config(into, below, st, temps), k, Config(at, below, r.st, temps), 1);
      Continue1(p, into, start, next, below, st, temps, r.st, k + 1, again, fuel - 1, k2);
      total := k + 1 + k2;
    }
  }

  lemma {:induction false} WhileRuns(p: Program, nested: bool, s: Stmt, pool: seq<Value>, ip: nat,
                                     below: seq<Value>, st: Store, temps: seq<Value>, fuel: nat)
    returns (n: nat)
    requires s.While?
    requires Placed(p, ip, CompileStmt(s, pool, nested)) && Room(below, temps, NeedStmt(s))
    ensures Ends(p, ip, ip + |CompileStmt(s, pool, nested).bytes|, below, st, temps,
                 EvalStmt(p.env, nested, s, st, fuel), fuel, n)
    decreases fuel, s, 3
  {
    hide Run, Config, CompileExpr, CompileBlock, Placed, LoopBlock, Need, NeedBlock, Ends, EvalLoop, CompileStmt;
    StmtCode(s, pool, nested);
    var c := CompileExpr(s.cond, pool, nested);
    var b := CompileBlock(s.body, c.pool, nested);
    assert Then(b, CompileEach([], b.pool, nested)) == b by { assert b.bytes + [] == b.bytes; }
    n := LoopRuns(p, nested, s.cond, s.body, [], pool, ip, below, st, temps, fuel);
  }

  lemma {:induction false} ForRuns(p: Program, nested: bool, s: Stmt, pool: seq<Value>, ip: nat,
                                   below: seq<Value>, st: Store, temps: seq<Value>, fuel: nat)
    returns (n: nat)
    requires s.For?
    requires Placed(p, ip, CompileStmt(s, pool, nested)) && Room(below, temps, NeedStmt(s))
    ensures Ends(p, ip, ip + |CompileStmt(s, pool, nested).bytes|, below, st, temps,
                 EvalStmt(p.env, nested, s, st, fuel), fuel, n)
    decreases fuel, s, 3
  {
    hide Run, Config, CompileExpr, CompileBlock, CompileEach, Placed, Need, NeedAny, NeedBlock, Ends, EvalLoop, EvalEach, CompileStmt;
    StmtCode(s, pool, nested);
    var i := CompileEach(s.init, pool, nested);
    var c := CompileExpr(s.cond, i.pool, nested);
    var l := LoopBlock(c, PassCode(s.body, s.increment, c.pool, nested));
    PlacedParts(p, ip, i, l);
    var r := EvalEach(p.env, nested, s.init, st);
    n := EachRuns(p, nested, s.init, pool, ip, below, st, temps);
    EndsAnyFuel(p, ip, ip + |i.bytes|, below, st, temps, r, fuel, n);
    var k := 0;
    if r.Finished? {
      k := LoopRuns(p, nested, s.cond, s.body, s.increment, i.pool, ip + |i.bytes|, below, r.st, temps, fuel);
    }
    n := Sequence(p, ip, ip + |i.bytes|, ip + |i.bytes| + |l.bytes|, below, st, temps, r, n,
                  EvalLoop(p.env, nested, s.cond, s.body, s.increment, if r.Finished? then r.st else st, fuel), k, fuel);
  }

  lemma EndsAnyFuel(p: Program, ip: nat, next: nat, below: seq<Value>, st: Store, temps: seq<Value>, r: Exit, fuel: nat, n: nat)
    requires Ends(p, ip, next, below, st, temps, r, 0, n) && !r.OutOfFuel?
    ensures Ends(p, ip, next, below, st, temps, r, fuel, n)
  {
  }

  /** A for statement without a condition is left only by an error. */
  lemma {:induction false} EndlessRuns(p: Program, nested: bool, body: seq<Stmt>, increment: seq<Expr>, pool: seq<Value>,
                                       ip: nat, below: seq<Value>, st: Store, temps: seq<Value>, fuel: nat)
    returns (n: nat)
    requires Placed(p, ip, EndlessBlock(PassCode(body, increment, pool, nested)))
    requires Room(below, temps, NeedPass(body, increment))
    ensures Ends(p, ip, ip + |EndlessBlock(PassCode(body, increment, pool, nested)).bytes|, below, st, temps,
                 EvalEndless(p.env, nested, body, increment, st, fuel), fuel, n)
    ensures !EvalEndless(p.env, nested, body, increment, st, fuel).Finished?
    decreases fuel, body, 2
  {
    hide Run, Config, PassCode, EvalPass, At, Encode, Pooled, NeedPass, Ends;
    var b := PassCode(body, increment, pool, nested);
    var next := ip + |EndlessBlock(b).bytes|;
    EndlessLayout(p.code, ip, b);
    if fuel == 0 {
      n := 0;
      NoFuel(p, ip, next, below, st, temps);
      return;
    }
    var r := EvalPass(p.env, nested, body, increment, st, fuel);
    n := PassRuns(p, nested, body, increment, pool, ip, below, st, temps, fuel);
    var k := 0;
    if r.Finished? {
      k := EndlessRuns(p, nested, body, increment, pool, ip, below, r.st, temps, fuel - 1);
    }
    var again := EvalEndless(p.env, nested, body, increment, if r.Finished? then r.st else st, fuel - 1);
    n := BackAgain(p, ip, ip + |b.bytes|, ip, next, below, st, temps, r, n, again, k, fuel);
  }

  lemma {:induction false} ForeverRuns(p: Program, nested: bool, s: Stmt, pool: seq<Value>, ip: nat,
                                       below: seq<Value>, st: Store, temps: seq<Value>, fuel: nat)
    returns (n: nat)
    requires s.Forever?
    requires Placed(p, ip, CompileStmt(s, pool, nested)) && Room(below, temps, NeedStmt(s))
    ensures Ends(p, ip, ip + |CompileStmt(s, pool, nested).bytes|, below, st, temps,
                 EvalStmt(p.env, nested, s, st, fuel), fuel, n)
    decreases fuel, s, 3
  {
    hide Run, Config, CompileBlock, CompileEach, Placed, NeedAny, NeedBlock, Ends, EvalEndless, EvalEach, CompileStmt;
    StmtCode(s, pool, nested);
    var i := CompileEach(s.init, pool, nested);
    var l := EndlessBlock(PassCode(s.body, s.increment, i.pool, nested));
    PlacedParts(p, ip, i, l);
    var r := EvalEach(p.env, nested, s.init, st);
    n := EachRuns(p, nested, s.init, pool, ip, below, st, temps);
    EndsAnyFuel(p, ip, ip + |i.bytes|, below, st, temps, r, fuel, n);
    var k := 0;
    if r.Finished? {
      k := EndlessRuns(p, nested, s.body, s.increment, i.pool, ip + |i.bytes|, below, r.st, temps, fuel);
    }
    n := Sequence(p, ip, ip + |i.bytes|, ip + |i.bytes| + |l.bytes|, below, st, temps, r, n,
                  EvalEndless(p.env, nested, s.body, s.increment, if r.Finished? then r.st else st, fuel), k, fuel);
  }

  // ----- foreach -----

  /** The parts of FOREACH_NEXT, body, LOOP, POP, POP. */
  lemma ForeachParts(p: Program, ip: nat, valueOnly: bool, b: Code)
    requires Placed(p, ip, ForeachBlock(valueOnly, b))
    ensures |b.bytes| + 3 <= SHORT_MAX && |b.bytes| + 6 <= LOOP_MAX
    ensures At(p.code, ip, Encode(ForeachInstr(valueOnly, |b.bytes| + 3)))
    ensures Placed(p, ip + 3, b)
    ensures At(p.code, ip + 3 + |b.bytes|, Encode(Loop(|b.bytes| + 6)))
    ensures At(p.code, ip + 6 + |b.bytes|, Encode(Pop)) && At(p.code, ip + 7 + |b.bytes|, Encode(Pop))
    ensures |ForeachBlock(valueOnly, b).bytes| == |b.bytes| + 8
  {
    hide Encode, Pooled, At;
    ForeachLayout(p.code, ip, valueOnly, b);
  }

  /** FOREACH_NEXT either pushes the next key and value or leaves the loop. */
  lemma ForeachStep(p: Program, ip: nat, below: seq<Value>, st: Store, temps: seq<Value>, valueOnly: bool,
                    distance: Short, collection: Value, cursor: Value)
    requires At(p.code, ip, Encode(ForeachInstr(valueOnly, distance))) && Room(below, temps, 4)
    ensures Run(p, Config(ip, below, st, temps + [collection, cursor]), 1) ==
            match (p.env.foreachNext)(valueOnly, collection, cursor, st)
            case None => Running(Config(ip + 3 + distance, below, st, temps + [collection, cursor]))
            case Some(item) =>
              Running(Config(ip + 3, below, item.after, temps + [collection, item.cursor] + [item.key] + [item.value]))
  {
    hide Run, Config;
    var operands := temps + [collection, cursor];
    var next := (p.env.foreachNext)(valueOnly, collection, cursor, st);
    if next.Some? {
      assert operands[..|operands| - 1] + [next.value.cursor, next.value.key, next.value.value]
          == temps + [collection, next.value.cursor] + [next.value.key] + [next.value.value];
    }
    StepConfig(p, ip, below, st, operands, ForeachInstr(valueOnly, distance));
  }

  lemma CheckedStoreStep(p: Program, ip: nat, below: seq<Value>, st: Store, temps: seq<Value>, pool: seq<Value>,
                         name: string, v: Value)
    requires Placed(p, ip, Plus(CheckedStoreCode(name, pool), Pop)) && Room(below, temps, 1)
    ensures Run(p, Config(ip, below, st, temps + [v]), 2) == Running(Config(ip + 4, below, SetScoped(st, name, v), temps))
    ensures |Plus(CheckedStoreCode(name, pool), Pop).bytes| == 4
  {
    hide Run, Config, SetScoped;
    PlacedPlus(p, ip, CheckedStoreCode(name, pool), Pop);
    CheckedStoreApplies(p, st, temps, pool, name, v);
    var after := SetScoped(st, name, v);
    Plain(p, ip, below, st, temps + [v], StoreGlobal(ConstantOperand(pool, Text(name))), after, temps + [v]);
    PopStep(p, ip + 3, below, after, temps, v);
    Join(p, Config(ip, below, st, temps + [v]), 1, Config(ip + 3, below, after, temps + [v]), 1);
  }

  lemma CheckedStoreApplies(p: Program, st: Store, temps: seq<Value>, pool: seq<Value>, name: string, v: Value)
    requires Pooled(p, CheckedStoreCode(name, pool).pool)
    ensures Apply(p, StoreGlobal(ConstantOperand(pool, Text(name))), st, temps + [v]) ==
            Continue(SetScoped(st, name, v), temps + [v], 0)
  {
    ConstantPlaced(p, pool, Text(name));
  }

  /** The value and the key of the item go into their variables. */
  lemma BindRuns(p: Program, ip: nat, below: seq<Value>, st: Store, temps: seq<Value>, pool: seq<Value>,
                 index: Option<string>, value: string, item: ForeachItem)
    returns (n: nat)
    requires Placed(p, ip, BindCode(index, value, pool)) && Room(below, temps, 2)
    ensures Run(p, Config(ip, below, item.after, temps + [item.key] + [item.value]), n) ==
            Running(Config(ip + |BindCode(index, value, pool).bytes|, below, BindItem(index, value, item), temps))
  {
    hide Run, Config, SetScoped, CheckedStoreCode, Encode, At, Pooled;
    var v := Plus(CheckedStoreCode(value, pool), Pop);
    PlacedParts(p, ip, v, KeyCode(index, v.pool));
    CheckedStoreStep(p, ip, below, item.after, temps + [item.key], pool, value, item.value);
    var mid := SetScoped(item.after, value, item.value);
    var start := Config(ip, below, item.after, temps + [item.key] + [item.value]);
    match index
    case None =>
      SimpleLengths(Add);
      PopStep(p, ip + 4, below, mid, temps, item.key);
      Join(p, start, 2, Config(ip + 4, below, mid, temps + [item.key]), 1);
      n := 3;
    case Some(name) =>
      CheckedStoreStep(p, ip + 4, below, mid, temps, v.pool, name, item.key);
      Join(p, start, 2, Config(ip + 4, below, mid, temps + [item.key]), 2);
      n := 4;
  }

  lemma TwoPops(p: Program, ip: nat, below: seq<Value>, st: Store, temps: seq<Value>, a: Value, b: Value)
    requires At(p.code, ip, Encode(Pop)) && At(p.code, ip + 1, Encode(Pop)) && Room(below, temps, 2)
    ensures Run(p, Config(ip, below, st, temps + [a, b]), 2) == Running(Config(ip + 2, below, st, temps))
  {
    hide Run, Config;
    assert temps + [a, b] == temps + [a] + [b];
    PopStep(p, ip, below, st, temps + [a], b);
    PopStep(p, ip + 1, below, st, temps, a);
    Join(p, Config(ip, below, st, temps + [a, b]), 1, Config(ip + 1, below, st, temps + [a]), 1);
  }

  /** The turns of a foreach loop: collection and position lie on the operand stack
      below whatever the body uses. */
  lemma {:induction false} ForeachRuns(p: Program, nested: bool, index: Option<string>, value: string, collection: Value,
                                       cursor: Value, body: seq<Stmt>, pool: seq<Value>, ip: nat,
                                       below: seq<Value>, st: Store, temps: seq<Value>, fuel: nat)
    returns (n: nat)
    requires Placed(p, ip, ForeachBlock(index.None?, ForeachBody(index, value, body, pool, nested)))
    requires Room(below, temps, 2 + Max(2, NeedBlock(body)))
    ensures var o := Run(p, Config(ip, below, st, temps + [collection, cursor]), n);
            match EvalForeach(p.env, nested, index, value, collection, cursor, body, st, fuel)
            case Finished(after) =>
              o == Running(Config(ip + |ForeachBlock(index.None?, ForeachBody(index, value, body, pool, nested)).bytes|,
                                  below, after, temps))
            case Stuck => o == Failed
            case OutOfFuel => n >= fuel && o.Running?
    decreases fuel, body, 2
  {
    hide Run, Config, BindCode, CompileBlock, EvalBlock, At, Encode, Placed, ForeachBlock, NeedBlock, BindItem, ForeachInstr;
    var b := BindCode(index, value, pool);
    var c := CompileBlock(body, b.pool, nested);
    var all := ForeachBody(index, value, body, pool, nested);
    ForeachParts(p, ip, index.None?, all);
    PlacedParts(p, ip + 3, b, c);
    ThenLength(b, c);
    var start := Config(ip, below, st, temps + [collection, cursor]);
    if fuel == 0 {
      n := 0;
      RunZero(p, start);
      return;
    }
    ForeachStep(p, ip, below, st, temps, index.None?, |all.bytes| + 3, collection, cursor);
    var next := (p.env.foreachNext)(index.None?, collection, cursor, st);
    if next.None? {
      var out := ip + 6 + |all.bytes|;
      TwoPops(p, out, below, st, temps, collection, cursor);
      Join(p, start, 1, Config(out, below, st, temps + [collection, cursor]), 2);
      n := 3;
      return;
    }
    var item := next.value;
    var under := temps + [collection, item.cursor];
    var k := BindRuns(p, ip + 3, below, st, under, pool, index, value, item);
    Join(p, start, 1, Config(ip + 3, below, item.after, under + [item.key] + [item.value]), k);
    var bound := BindItem(index, value, item);
    var at := ip + 3 + |b.bytes|;
    var r := EvalBlock(p.env, nested, body, bound, fuel);
    var k2 := BlockRuns(p, nested, body, b.pool, at, below, bound, under, fuel);
    Join(p, start, 1 + k, Config(at, below, bound, under), k2);
    n := 1 + k + k2;
    if r.Finished? {
      var back := at + |c.bytes|;
      LoopStep(p, back, below, r.st, under, |all.bytes| + 6);
      Join(p, start, n, Config(back, below, r.st, under), 1);
      var k3 := ForeachRuns(p, nested, index, value, collection, item.cursor, body, pool, ip, below, r.st, temps, fuel - 1);
      Join(p, start, n + 1, Config(ip, below, r.st, under), k3);
      n := n + 1 + k3;
    }
  }

  lemma {:induction false} ForeachStmtRuns(p: Program, nested: bool, s: Stmt, pool: seq<Value>, ip: nat,
                                           below: seq<Value>, st: Store, temps: seq<Value>, fuel: nat)
    returns (n: nat)
    requires s.Foreach?
    requires Placed(p, ip, CompileStmt(s, pool, nested)) && Room(below, temps, NeedStmt(s))
    ensures Ends(p, ip, ip + |CompileStmt(s, pool, nested).bytes|, below, st, temps,
                 EvalStmt(p.env, nested, s, st, fuel), fuel, n)
    decreases fuel, s, 3
  {
    hide Run, Config, CompileExpr, EvalExpr, At, Encode, Placed, ForeachBlock, NeedBlock, EvalForeach, PushConstantCode, Need, CompileStmt;
    hide EvalStmt;
    StmtCode(s, pool, nested);
    ForeachEval(p.env, nested, s, st, fuel);
    var g := CompileExpr(s.generator, pool, nested);
    var zero := PushConstantCode(g.pool, Int(0));
    var loop := ForeachBlock(s.index.None?, ForeachBody(s.index, s.value, s.body, zero.pool, nested));
    ForeachCode(s, pool, nested);
    ThenParts(p, ip, g, zero, loop);
    n := ExprRuns(p, nested, s.generator, pool, ip, below, st, temps);
    var r := EvalExpr(p.env, nested, s.generator, st);
    if r.Ok? {
      var start := Config(ip, below, st, temps);
      var mid := ip + |g.bytes|;
      PushConstant(p, mid, below, r.st, temps + [r.v], g.pool, Int(0));
      assert temps + [r.v] + [Int(0)] == temps + [r.v, Int(0)];
      Join(p, start, n, Config(mid, below, r.st, temps + [r.v]), 1);
      var k := ForeachRuns(p, nested, s.index, s.value, r.v, Int(0), s.body, zero.pool, mid + 3, below, r.st, temps, fuel);
      Join(p, start, n + 1, Config(mid + 3, below, r.st, temps + [r.v, Int(0)]), k);
      n := n + 1 + k;
    }
  }

  lemma ForeachEval(env: Env, nested: bool, s: Stmt, st: Store, fuel: nat)
    requires s.Foreach?
    ensures EvalStmt(env, nested, s, st, fuel) ==
            match EvalExpr(env, nested, s.generator, st)
            case Error => Stuck
            case Ok(collection, st1) => EvalForeach(env, nested, s.index, s.value, collection, Int(0), s.body, st1, fuel)
  {
    hide EvalExpr, EvalForeach;
  }

  lemma ForeachCode(s: Stmt, pool: seq<Value>, nested: bool)
    requires s.Foreach?
    ensures var g := CompileExpr(s.generator, pool, nested);
            var zero := PushConstantCode(g.pool, Int(0));
            var body := ForeachBody(s.index, s.value, s.body, zero.pool, nested);
            && CompileStmt(s, pool, nested) == Then(Then(g, zero), ForeachBlock(s.index.None?, body))
            && g.pool <= zero.pool <= ForeachBlock(s.index.None?, body).pool
            && |zero.bytes| == 3
  {
    hide CompileExpr, CompileBlock, ForeachBody;
  }
}
