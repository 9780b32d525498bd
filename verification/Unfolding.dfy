/** The code of each construct in terms of the code of its parts, one equation a
    construct. */
module Unfolding {
  import opened Values
  import opened Instructions
  import opened Syntax
  import opened Codegen

  lemma LogicalCode(left: Expr, right: Expr, pool: seq<Value>, nested: bool)
    ensures var l := CompileExpr(left, pool, nested);
            var r := CompileExpr(right, l.pool, nested);
            && CompileExpr(And(left, right), pool, nested) == ShortCircuit(l, true, r)
            && CompileExpr(Or(left, right), pool, nested) == ShortCircuit(l, false, r)
  {
    hide Encode, LoadCode, StoreCode, Then, Plus, PushConstantCode, Branch,
      ShortCircuit, BridgeCode, CallCode, CompileArgs, IffTest, IffFirst, IffSecond;
  }

  lemma BinopCode(op: BinaryOp, left: Expr, right: Expr, pool: seq<Value>, nested: bool)
    ensures var r := CompileExpr(right, pool, nested);
            var l := CompileExpr(left, r.pool, nested);
            CompileExpr(Binop(op, left, right), pool, nested) ==
            Plus(Plus(Then(r, l), Swap), Binary(op))
  {
    hide Encode, LoadCode, StoreCode, Then, Plus, PushConstantCode, Branch,
      ShortCircuit, BridgeCode, CallCode, CompileArgs, IffTest, IffFirst, IffSecond;
  }

  lemma BridgeExprCode(name: string, negate: bool, left: Expr, right: Expr, pool: seq<Value>, nested: bool)
    ensures var l := CompileExpr(left, pool, nested);
            var r := CompileExpr(right, l.pool, nested);
            CompileExpr(Bridge(name, negate, left, right), pool, nested) ==
            Then(Then(l, r), BridgeCode(name, negate, r.pool))
  {
    hide Encode, LoadCode, StoreCode, Then, Plus, PushConstantCode, Branch,
      ShortCircuit, BridgeCode, CallCode, CompileArgs, IffTest, IffFirst, IffSecond;
  }

  lemma UnaryCode(operand: Expr, pool: seq<Value>, nested: bool)
    ensures CompileExpr(Expr.Not(operand), pool, nested) ==
            Plus(CompileExpr(operand, pool, nested), Instr.Not)
    ensures CompileExpr(Minus(operand), pool, nested) ==
            Plus(CompileExpr(operand, pool, nested), Negate)
  {
    hide Encode, LoadCode, StoreCode, Then, Plus, PushConstantCode, Branch,
      ShortCircuit, BridgeCode, CallCode, CompileArgs, IffTest, IffFirst, IffSecond;
  }

  lemma AssignCode(name: string, right: Expr, pool: seq<Value>, nested: bool)
    ensures var r := CompileExpr(right, pool, nested);
            CompileExpr(Assign(name, right), pool, nested) ==
            Then(r, StoreCode(name, r.pool, nested))
  {
    hide Encode, LoadCode, StoreCode, Then, Plus, PushConstantCode, Branch,
      ShortCircuit, BridgeCode, CallCode, CompileArgs, IffTest, IffFirst, IffSecond;
  }

  lemma OpAssignCode(name: string, op: CompoundOp, right: Expr, pool: seq<Value>, nested: bool)
    ensures var l := LoadCode(name, pool, nested);
            var r := CompileExpr(right, l.pool, nested);
            CompileExpr(OpAssign(name, op, right), pool, nested) ==
            Then(Plus(Then(l, r), Binary(op)), StoreCode(name, r.pool, nested))
  {
    hide Encode, LoadCode, StoreCode, Then, Plus, PushConstantCode, Branch,
      ShortCircuit, BridgeCode, CallCode, CompileArgs, IffTest, IffFirst, IffSecond;
  }

  lemma CallExprCode(name: string, args: seq<Expr>, pool: seq<Value>, nested: bool)
    ensures var l := LoadCode(name, pool, nested);
            var a := CompileArgs(args, l.pool, nested);
            CompileExpr(Call(name, args), pool, nested) ==
            Then(Then(l, a), CallCode(name, |args|, a.pool))
  {
    hide Encode, LoadCode, StoreCode, Then, Plus, PushConstantCode, Branch,
      ShortCircuit, BridgeCode, CallCode, CompileArgs, IffTest, IffFirst, IffSecond;
    var l := LoadCode(name, pool, nested);
    var a := CompileArgs(args, l.pool, nested);
    assert CompileExpr(Call(name, args), pool, nested) ==
      Then(Then(l, a), CallCode(name, |args|, a.pool));
  }

  lemma IffCode(args: seq<Expr>, pool: seq<Value>, nested: bool)
    requires |args| > 0
    ensures var c := IffTest(args, pool, nested);
            var t := IffFirst(args, c.pool, nested);
            CompileExpr(Iff(args), pool, nested) == Branch(c, t, IffSecond(args, t.pool, nested))
  {
    hide Encode, LoadCode, StoreCode, Then, Plus, PushConstantCode, Branch,
      ShortCircuit, BridgeCode, CallCode, CompileArgs, IffTest, IffFirst, IffSecond;
  }

  lemma StmtCode(s: Stmt, pool: seq<Value>, nested: bool)
    ensures CompileStmt(s, pool, nested) ==
      match s
      case ExprStmt(e) => Plus(CompileExpr(e, pool, nested), Pop)
      case Empty => Single(Nop, pool)
      case If(cond, thenBody, elseBody) =>
        var c := CompileExpr(cond, pool, nested);
        var t := CompileBlock(thenBody, c.pool, nested);
        Branch(c, t, CompileBlock(elseBody, t.pool, nested))
      case While(cond, body) =>
        var c := CompileExpr(cond, pool, nested);
        LoopBlock(c, CompileBlock(body, c.pool, nested))
      case For(init, cond, increment, body) =>
        var i := CompileEach(init, pool, nested);
        var c := CompileExpr(cond, i.pool, nested);
        Then(i, LoopBlock(c, PassCode(body, increment, c.pool, nested)))
      case Forever(init, increment, body) =>
        var i := CompileEach(init, pool, nested);
        Then(i, EndlessBlock(PassCode(body, increment, i.pool, nested)))
      case Foreach(index, value, generator, body) =>
        var g := CompileExpr(generator, pool, nested);
        var start := Then(g, PushConstantCode(g.pool, Int(0)));
        Then(start, ForeachBlock(index.None?, ForeachBody(index, value, body, start.pool, nested)))
  {
    hide Encode, CompileExpr, CompileBlock, CompileEach, PassCode, ForeachBody,
      Then, Plus, Branch, LoopBlock, EndlessBlock, ForeachBlock,
      PushConstantCode, Single;
  }
}
