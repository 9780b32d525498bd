/** The meaning of syntax trees, without code or stack: ordinary operands are
    evaluated right to left, compound assignment and predicate bridges left to right,
    call arguments from the last to the first. */
module Evaluator {
  import opened Values
  import opened Syntax
  import opened Machine
  import Codegen

  datatype Result = Ok(v: Value, st: Store) | Error

  datatype ArgsResult = ArgsOk(vs: seq<Value>, st: Store) | ArgsError

  function LoadVariable(env: Env, nested: bool, name: string, st: Store): (Value, Store) {
    match Codegen.SlotOf(name, nested)
    case Some(slot) => (st.slots[slot], st)
    case None => LoadScoped(env, st, name)
  }

  function StoreVariable(nested: bool, name: string, v: Value, st: Store): Store {
    match Codegen.SlotOf(name, nested)
    case Some(slot) => st.(slots := st.slots[slot := v])
    case None => SetScoped(st, name, v)
  }

  function EvalExpr(env: Env, nested: bool, e: Expr, st: Store): Result
    decreases e, 1
  {
    match e
    case Literal(v) => Ok(v, st)
    case NullLiteral => Ok(Null, st)
    case BoolLiteral(b) => Ok(Bool(b), st)
    case Variable(name) => var (v, after) := LoadVariable(env, nested, name, st); Ok(v, after)
    case Binop(op, left, right) =>
      (match EvalExpr(env, nested, right, st)
       case Error => Error
       case Ok(r, st1) =>
         match EvalExpr(env, nested, left, st1)
         case Error => Error
         case Ok(l, st2) =>
           match BinaryResult(env.host, op, l, r)
           case None => Error
           case Some(v) => Ok(v, st2))
    case Bridge(name, negate, left, right) =>
      (match EvalExpr(env, nested, left, st)
       case Error => Error
       case Ok(l, st1) =>
         match EvalExpr(env, nested, right, st1)
         case Error => Error
         case Ok(r, st2) =>
           var (holds, after) := (env.predicateBridge)(name, l, r, st2);
           Ok(Bool(holds != negate), after))
    case And(left, right) =>
      (match EvalExpr(env, nested, left, st)
       case Error => Error
       case Ok(l, st1) => if IsFalsy(l) then Ok(l, st1) else EvalExpr(env, nested, right, st1))
    case Or(left, right) =>
      (match EvalExpr(env, nested, left, st)
       case Error => Error
       case Ok(l, st1) => if IsFalsy(l) then EvalExpr(env, nested, right, st1) else Ok(l, st1))
    case Not(operand) =>
      (match EvalExpr(env, nested, operand, st)
       case Error => Error
       case Ok(v, st1) => Ok(Bool(IsFalsy(v)), st1))
    case Minus(operand) =>
      (match EvalExpr(env, nested, operand, st)
       case Error => Error
       case Ok(v, st1) => Ok(NegateResult(env.host, v), st1))
    case Iff(args) =>
      if |args| == 0 then Ok(Null, st)
      else
        (match EvalIffTest(env, nested, args, st)
         case Error => Error
         case Ok(c, st1) =>
           if IsFalsy(c) then EvalIffSecond(env, nested, args, st1) else EvalIffFirst(env, nested, args, st1))
    case Assign(name, right) =>
      (match EvalExpr(env, nested, right, st)
       case Error => Error
       case Ok(v, st1) => Ok(v, StoreVariable(nested, name, v, st1)))
    case OpAssign(name, op, right) =>
      var (l, st1) := LoadVariable(env, nested, name, st);
      (match EvalExpr(env, nested, right, st1)
       case Error => Error
       case Ok(r, st2) =>
         match BinaryResult(env.host, op, l, r)
         case None => Error
         case Some(v) => Ok(v, StoreVariable(nested, name, v, st2)))
    case Bump(name, increment) =>
      var (l, st1) := LoadVariable(env, nested, name, st);
      var v := StepResult(env.host, l, increment);
      Ok(v, StoreVariable(nested, name, v, st1))
    case Call(name, args) =>
      var (target, st1) := LoadVariable(env, nested, name, st);
      match EvalArgs(env, nested, args, st1)
      case ArgsError => Error
      case ArgsOk(vs, st2) =>
        match (env.call)(name, target, vs, st2)
        case None => Error
        case Some((v, after)) => Ok(v, after)
  }

  function EvalIffTest(env: Env, nested: bool, args: seq<Expr>, st: Store): Result
    requires |args| > 0
    decreases args, 0
  {
    if IsPredicateShape(args[0]) then EvalExpr(env, nested, args[0], st) else Ok(Bool(false), st)
  }

  function EvalIffFirst(env: Env, nested: bool, args: seq<Expr>, st: Store): Result
    decreases args, 0
  {
    if |args| >= 2 then EvalExpr(env, nested, args[1], st) else Ok(Int(1), st)
  }

  function EvalIffSecond(env: Env, nested: bool, args: seq<Expr>, st: Store): Result
    decreases args, 0
  {
    if |args| >= 3 then EvalExpr(env, nested, args[2], st) else Ok(Null, st)
  }

  /** The values come back in source order. */
  function EvalArgs(env: Env, nested: bool, args: seq<Expr>, st: Store): (r: ArgsResult)
    ensures r.ArgsOk? ==> |r.vs| == |args|
    decreases args, 0
  {
    if args == [] then ArgsOk([], st)
    else
      match EvalArg(env, nested, args[|args| - 1], st)
      case Error => ArgsError
      case Ok(last, st1) =>
        match EvalArgs(env, nested, args[..|args| - 1], st1)
        case ArgsError => ArgsError
        case ArgsOk(vs, st2) => ArgsOk(vs + [last], st2)
  }

  function EvalArg(env: Env, nested: bool, e: Expr, st: Store): Result
    decreases e, 2
  {
    if e.Variable? then
      var (v, after) := EvalReference(env, nested, e.name, st);
      Ok(v, after)
    else
      EvalExpr(env, nested, e, st)
  }

  function EvalReference(env: Env, nested: bool, name: string, st: Store): (Value, Store) {
    match Codegen.SlotOf(name, nested)
    case Some(slot) => (env.reference)(SlotName(slot), st)
    case None => (env.reference)(name, st)
  }

  /** Statements end with a store, stop on a runtime error, or use up the fuel, which
      bounds how often each loop turns. */
  datatype Exit = Finished(st: Store) | Stuck | OutOfFuel

  function EvalEach(env: Env, nested: bool, es: seq<Expr>, st: Store): Exit
    decreases |es|
  {
    if es == [] then Finished(st)
    else
      match EvalExpr(env, nested, es[0], st)
      case Error => Stuck
      case Ok(_, st1) => EvalEach(env, nested, es[1..], st1)
  }

  function EvalBlock(env: Env, nested: bool, body: seq<Stmt>, st: Store, fuel: nat): Exit
    decreases fuel, body, 0
  {
    if body == [] then Finished(st)
    else
      match EvalStmt(env, nested, body[0], st, fuel)
      case Finished(st1) => EvalBlock(env, nested, body[1..], st1, fuel)
      case other => other
  }

  function EvalStmt(env: Env, nested: bool, s: Stmt, st: Store, fuel: nat): Exit
    decreases fuel, s, 2
  {
    match s
    case ExprStmt(e) => (match EvalExpr(env, nested, e, st) case Error => Stuck case Ok(_, st1) => Finished(st1))
    case Empty => Finished(st)
    case If(cond, thenBody, elseBody) =>
      (match EvalExpr(env, nested, cond, st)
       case Error => Stuck
       case Ok(c, st1) => EvalBlock(env, nested, if IsFalsy(c) then elseBody else thenBody, st1, fuel))
    case While(cond, body) => EvalLoop(env, nested, cond, body, [], st, fuel)
    case For(init, cond, increment, body) =>
      (match EvalEach(env, nested, init, st)
       case Finished(st1) => EvalLoop(env, nested, cond, body, increment, st1, fuel)
       case other => other)
    case Forever(init, increment, body) =>
      (match EvalEach(env, nested, init, st)
       case Finished(st1) => EvalEndless(env, nested, body, increment, st1, fuel)
       case other => other)
    case Foreach(index, value, generator, body) =>
      match EvalExpr(env, nested, generator, st)
      case Error => Stuck
      case Ok(collection, st1) => EvalForeach(env, nested, index, value, collection, Int(0), body, st1, fuel)
  }

  /** One pass of a loop body followed by its increments. */
  function EvalPass(env: Env, nested: bool, body: seq<Stmt>, increment: seq<Expr>, st: Store, fuel: nat): Exit
    decreases fuel, body, 1
  {
    match EvalBlock(env, nested, body, st, fuel)
    case Finished(st1) => EvalEach(env, nested, increment, st1)
    case other => other
  }

  function EvalLoop(env: Env, nested: bool, cond: Expr, body: seq<Stmt>, increment: seq<Expr>, st: Store, fuel: nat): Exit
    decreases fuel, body, 2
  {
    if fuel == 0 then OutOfFuel
    else
      match EvalExpr(env, nested, cond, st)
      case Error => Stuck
      case Ok(c, st1) =>
        if IsFalsy(c) then Finished(st1)
        else
          match EvalPass(env, nested, body, increment, st1, fuel)
          case Finished(st2) => EvalLoop(env, nested, cond, body, increment, st2, fuel - 1)
          case other => other
  }

  function EvalEndless(env: Env, nested: bool, body: seq<Stmt>, increment: seq<Expr>, st: Store, fuel: nat): Exit
    decreases fuel, body, 2
  {
    if fuel == 0 then OutOfFuel
    else
      match EvalPass(env, nested, body, increment, st, fuel)
      case Finished(st1) => EvalEndless(env, nested, body, increment, st1, fuel - 1)
      case other => other
  }

  /** Foreach always assigns scoped variables, also inside a nested function. */
  function BindItem(index: Option<string>, value: string, item: ForeachItem): Store {
    var st := SetScoped(item.after, value, item.value);
    match index
    case None => st
    case Some(name) => SetScoped(st, name, item.key)
  }

  function EvalForeach(env: Env, nested: bool, index: Option<string>, value: string, collection: Value,
                       cursor: Value, body: seq<Stmt>, st: Store, fuel: nat): Exit
    decreases fuel, body, 2
  {
    if fuel == 0 then OutOfFuel
    else
      match (env.foreachNext)(index.None?, collection, cursor, st)
      case None => Finished(st)
      case Some(item) =>
        match EvalBlock(env, nested, body, BindItem(index, value, item), fuel)
        case Finished(st1) =>
          EvalForeach(env, nested, index, value, collection, item.cursor, body, st1, fuel - 1)
        case other => other
  }
}
