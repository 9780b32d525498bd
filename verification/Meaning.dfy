/** What names, parameters and conditions mean, and in which order things happen: facts
    about small pieces of code that do not depend on how evaluator and machine are written. */
module Meaning {
  import opened Values
  import opened Instructions
  import opened Syntax
  import opened Machine
  import opened Codegen
  import opened Evaluator
  import opened Arithmetic
  import Control
  import ControlSteps
  import Calls

  // ----- scopes -----

  /** A variable is that of the innermost scope that has the name, else the global one; a
      scalar that no scope has becomes a global null when it is read. */
  lemma ScopedAccess(p: Program, st: Store, temps: seq<Value>, index: Short, name: string, v: Value)
    requires index < |p.constants| && p.constants[index] == Text(name)
    ensures var s := st.scopes;
            Apply(p, StoreGlobal(index), st, temps + [v]) ==
            Continue(st.(scopes := if name in s.local then s.(local := s.local[name := v])
                                   else if name in s.closure then s.(closure := s.closure[name := v])
                                   else s.(globals := s.globals[name := v])), temps + [v], 0)
    ensures var s := st.scopes;
            var e := Apply(p, LoadGlobal(index), st, temps);
            && (name in s.local ==> e == Continue(st, temps + [s.local[name]], 0))
            && (name !in s.local && name in s.closure ==> e == Continue(st, temps + [s.closure[name]], 0))
            && (name !in s.local && name !in s.closure && name in s.globals ==> e == Continue(st, temps + [s.globals[name]], 0))
            && (name !in s.local && name !in s.closure && name !in s.globals && name != [] && name[0] == '$' ==>
                  e == Continue(st.(scopes := s.(globals := s.globals[name := Null])), temps + [Null], 0))
  {
    Apply1(temps, v);
  }

  /** What is written to a name is read back, and no other name is touched. */
  lemma ReadWritten(p: Program, st: Store, temps: seq<Value>, index: Short, other: Short, name: string, v: Value)
    requires index < |p.constants| && p.constants[index] == Text(name)
    requires other < |p.constants| && p.constants[other].Text? && p.constants[other] != Text(name)
    requires ScopedGet(st.scopes, p.constants[other].chars).Some?
    ensures var after := Apply(p, StoreGlobal(index), st, temps + [v]).st;
            && Apply(p, LoadGlobal(index), after, temps) == Continue(after, temps + [v], 0)
            && Apply(p, LoadGlobal(other), after, temps).temps == Apply(p, LoadGlobal(other), st, temps).temps
  {
    Apply1(temps, v);
  }

  // ----- parameters -----

  /** `$0` to `$9`. */
  function ParameterName(k: nat): string
    requires k <= 9
  {
    ['$', "0123456789"[k]]
  }

  /** What a caller gives for `$k`. */
  function Given(s: Control.Slice, callName: Value, call: ControlSteps.Call, k: nat): Value
    requires ControlSteps.Callee(s, call) >= 0
  {
    if k == 0 then (if call.hasMessage then s.stack[ControlSteps.Callee(s, call) + 1] else callName)
    else if k <= call.args then s.stack[|s.stack| - call.args + (k - 1)] else Null
  }

  /** In a function that was just called, `$0` is the message, `$1` to `$9` are the first
      nine arguments or null, and `@_` holds all of them: the code compiled for the name
      loads exactly that from the new frame. */
  lemma ParametersRead(s: Control.Slice, closure: nat, inline: bool, callName: Value, call: ControlSteps.Call,
                       p: Program, st: Store, temps: seq<Value>, pool: seq<Value>, k: nat) returns (i: Instr, all: Instr)
    requires k <= 9 && ControlSteps.Callee(s, call) >= 0
    requires st.slots == ControlSteps.Entered(s, closure, inline, callName, call).stack[ControlSteps.Callee(s, call)..]
    ensures LoadCode(ParameterName(k), pool, true).bytes == Encode(i) && LoadCode("@_", pool, true).bytes == Encode(all)
    ensures Pops(i) <= |temps| && Pops(all) <= |temps|
            && Apply(p, i, st, temps) == Continue(st, temps + [Given(s, callName, call, k)], 0)
            && Apply(p, all, st, temps) == Continue(st, temps + [call.passed], 0)
  {
    i, all := LoadLocal(k + 1), LoadLocal(11);
    var at := ControlSteps.Callee(s, call);
    var t := ControlSteps.Entered(s, closure, inline, callName, call);
    Calls.EnteredSlots(s, closure, inline, callName, call);
    assert st.slots[k + 1] == t.stack[at + (k + 1)] && st.slots[11] == t.stack[at + 11];
    SlotsOfNames(k);
    hide ControlSteps.Entered;
  }

  /** The same slots are named when a parameter is passed on by reference. */
  lemma SlotsOfNames(k: nat)
    requires k <= 9
    ensures SlotOf(ParameterName(k), true) == Some((k + 1) as Byte) && SlotOf("@_", true) == Some(11)
    ensures SlotName(k + 1) == ParameterName(k) && SlotName(11) == "@_"
  {
  }

  // ----- conditions -----

  /** The condition of an `iff` is evaluated if it is a comparison, and taken as false
      without being evaluated if it is any other binary operator. */
  lemma IffConditions(env: Env, nested: bool, op: BinaryOp, l: Expr, r: Expr, x: Expr, y: Expr, st: Store)
    ensures var iff := EvalExpr(env, nested, Iff([Binop(op, l, r), x, y]), st);
            if op in {Equal, NotEqual, Less, Greater, LessEqual, GreaterEqual} then
              match EvalExpr(env, nested, Binop(op, l, r), st)
              case Error => iff == Error
              case Ok(c, after) => iff == EvalExpr(env, nested, if CountsAsFalse(c) then y else x, after)
            else iff == EvalExpr(env, nested, y, st)
  {
    hide EvalExpr, IsFalsy;
    IffIs(env, nested, [Binop(op, l, r), x, y], st);
    FalseIs();
  }

  lemma IffIs(env: Env, nested: bool, args: seq<Expr>, st: Store)
    requires |args| == 3
    ensures EvalExpr(env, nested, Iff(args), st) ==
            match (if IsPredicateShape(args[0]) then EvalExpr(env, nested, args[0], st) else Ok(Bool(false), st))
            case Error => Error
            case Ok(c, after) => EvalExpr(env, nested, if IsFalsy(c) then args[2] else args[1], after)
  {
    hide BinaryResult, IsFalsy, IsPredicateShape;
    assert EvalIffTest(env, nested, args, st) ==
           if IsPredicateShape(args[0]) then EvalExpr(env, nested, args[0], st) else Ok(Bool(false), st);
  }

  lemma FalseIs()
    ensures forall v :: IsFalsy(v) <==> CountsAsFalse(v)
  {
  }

  // ----- the order of evaluation -----

  function Set(name: string, v: LiteralValue): Expr { Assign(name, Literal(v)) }

  /** The value of a variable a main program has set. */
  function Global(st: Store, name: string): Option<Value> { ScopedGet(st.scopes, name) }

  lemma SetEvaluates(env: Env, name: string, v: LiteralValue, st: Store)
    ensures EvalExpr(env, false, Set(name, v), st) == Ok(v, SetScoped(st, name, v))
    ensures Global(SetScoped(st, name, v), name) == Some(v)
  {
    assert EvalExpr(env, false, Literal(v), st) == Ok(v, st);
  }

  /** The operands of `($x = v) op ($x = w)` are evaluated from right to left, so `$x` is v
      afterwards. */
  lemma OperandOrder(env: Env, op: BinaryOp, name: string, v: LiteralValue, w: LiteralValue, st: Store)
    ensures var r := EvalExpr(env, false, Binop(op, Set(name, v), Set(name, w)), st);
            r.Ok? ==> Global(r.st, name) == Some(v)
  {
    hide BinaryResult;
    SetEvaluates(env, name, w, st);
    SetEvaluates(env, name, v, SetScoped(st, name, w));
  }

  /** Those of a predicate are evaluated from left to right: the predicate finds w in `$x`. */
  lemma PredicateOrder(env: Env, bridge: string, negate: bool, name: string, v: LiteralValue, w: LiteralValue, st: Store)
    returns (before: Store)
    ensures Global(before, name) == Some(w)
    ensures var (holds, after) := (env.predicateBridge)(bridge, v, w, before);
            EvalExpr(env, false, Bridge(bridge, negate, Set(name, v), Set(name, w)), st) == Ok(Bool(holds != negate), after)
  {
    SetEvaluates(env, name, v, st);
    SetEvaluates(env, name, w, SetScoped(st, name, v));
    before := SetScoped(SetScoped(st, name, v), name, w);
  }

  /** `$x op= ($x = w)` takes the old value of `$x`, and writes the result last. */
  lemma CompoundOrder(env: Env, op: CompoundOp, name: string, w: LiteralValue, st: Store, was: Value)
    requires Global(st, name) == Some(was)
    ensures var r := EvalExpr(env, false, OpAssign(name, op, Set(name, w)), st);
            var same := EvalExpr(env, false, Binop(op, Variable(name), Literal(w)), st);
            && (r.Ok? <==> same.Ok?) && (r.Ok? ==> r.v == same.v && Global(r.st, name) == Some(r.v))
  {
    hide BinaryResult;
    SetEvaluates(env, name, w, st);
    assert EvalExpr(env, false, Literal(w), st) == Ok(w, st);
    assert EvalExpr(env, false, Variable(name), st) == Ok(was, st);
  }

  /** The arguments of `f(($x = v), ($x = w))` are evaluated from the last to the first and
      passed in their order. */
  lemma ArgumentOrder(env: Env, f: string, name: string, v: LiteralValue, w: LiteralValue, st: Store, target: Value)
    returns (before: Store)
    requires Global(st, f) == Some(target)
    ensures Global(before, name) == Some(v)
    ensures EvalExpr(env, false, Call(f, [Set(name, v), Set(name, w)]), st) ==
            match (env.call)(f, target, [v, w], before) { case None => Error case Some((r, after)) => Ok(r, after) }
  {
    var args := [Set(name, v), Set(name, w)];
    SetEvaluates(env, name, w, st);
    SetEvaluates(env, name, v, SetScoped(st, name, w));
    before := SetScoped(SetScoped(st, name, w), name, v);
    assert args[..1] == [Set(name, v)] && args[..1][..0] == [];
    var st1 := SetScoped(st, name, w);
    assert EvalArg(env, false, args[1], st) == Ok(w, st1);
    assert EvalArg(env, false, args[0], st1) == Ok(v, before);
    assert EvalArgs(env, false, [], before) == ArgsOk([], before);
    assert EvalArgs(env, false, args[..1], st1) == ArgsOk([v], before);
    assert EvalArgs(env, false, args, st) == ArgsOk([v, w], before);
  }

  // ----- steps, conditions and loops -----

  /** `$x++` and `$x--` change the variable by one, wrapped, and their value is the new one. */
  lemma StepMeaning(env: Env, name: string, increment: bool, st: Store, was: Value)
    requires Global(st, name) == Some(was) && Whole(was)
    ensures var r := EvalExpr(env, false, Bump(name, increment), st);
            r.Ok? && Wrapped(r.v, was.Long?, if increment then Number(was) + 1 else Number(was) - 1) && Global(r.st, name) == Some(r.v)
  {
    hide EvalExpr, StepResult, Wrapped;
    BumpIs(env, name, increment, st, was);
    StepIs(env.host, was, increment);
  }

  lemma BumpIs(env: Env, name: string, increment: bool, st: Store, was: Value)
    requires Global(st, name) == Some(was)
    ensures var v := StepResult(env.host, was, increment);
            EvalExpr(env, false, Bump(name, increment), st) == Ok(v, SetScoped(st, name, v))
            && Global(SetScoped(st, name, v), name) == Some(v)
  {
    hide StepResult, BinaryResult, NegateResult, IsFalsy, EvalArgs, EvalIffTest;
    var v := StepResult(env.host, was, increment);
    assert LoadVariable(env, false, name, st) == (was, st);
    assert StoreVariable(false, name, v, st) == SetScoped(st, name, v);
    var e := Bump(name, increment);
    assert e.Bump? && e.name == name && e.increment == increment;
  }

  lemma StepIs(host: Host, was: Value, increment: bool)
    requires Whole(was)
    ensures Wrapped(StepResult(host, was, increment), was.Long?, if increment then Number(was) + 1 else Number(was) - 1)
  {
    hide Wrapped, Wrap32, Wrap64;
    WrapIs(if increment then Number(was) + 1 else Number(was) - 1);
  }

  /** `&&` and `||` give the operand that decides, and evaluate the right one only if the
      left one does not. */
  lemma LogicMeaning(env: Env, nested: bool, l: Expr, r: Expr, st: Store)
    ensures var left := EvalExpr(env, nested, l, st);
            if left.Error? then EvalExpr(env, nested, And(l, r), st) == Error == EvalExpr(env, nested, Or(l, r), st)
            else
              && EvalExpr(env, nested, And(l, r), st) == (if CountsAsFalse(left.v) then left else EvalExpr(env, nested, r, left.st))
              && EvalExpr(env, nested, Or(l, r), st) == (if CountsAsFalse(left.v) then EvalExpr(env, nested, r, left.st) else left)
  {
    hide EvalExpr, IsFalsy;
    FalseIs();
    AndIs(env, nested, l, r, st);
    OrIs(env, nested, l, r, st);
  }

  lemma AndIs(env: Env, nested: bool, l: Expr, r: Expr, st: Store)
    ensures EvalExpr(env, nested, And(l, r), st) ==
            match EvalExpr(env, nested, l, st)
            case Error => Error
            case Ok(v, st1) => if IsFalsy(v) then Ok(v, st1) else EvalExpr(env, nested, r, st1)
  {
    hide IsFalsy, BinaryResult, StepResult, NegateResult, LoadVariable, StoreVariable, EvalArgs, EvalIffTest;
    var e := And(l, r);
    assert e.And? && e.left == l && e.right == r;
  }

  lemma OrIs(env: Env, nested: bool, l: Expr, r: Expr, st: Store)
    ensures EvalExpr(env, nested, Or(l, r), st) ==
            match EvalExpr(env, nested, l, st)
            case Error => Error
            case Ok(v, st1) => if IsFalsy(v) then EvalExpr(env, nested, r, st1) else Ok(v, st1)
  {
    hide IsFalsy, BinaryResult, StepResult, NegateResult, LoadVariable, StoreVariable, EvalArgs, EvalIffTest;
    var e := Or(l, r);
    assert e.Or? && e.left == l && e.right == r;
  }

  /** What an `iff` gives for what it does not have: null without a condition, 1 for a
      missing first and null for a missing second value. */
  lemma IffDefaults(env: Env, nested: bool, b: bool, x: Expr, st: Store)
    ensures EvalExpr(env, nested, Iff([]), st) == Ok(Null, st)
    ensures EvalExpr(env, nested, Iff([BoolLiteral(b)]), st) == Ok(if b then Int(1) else Null, st)
    ensures EvalExpr(env, nested, Iff([BoolLiteral(b), x]), st) == if b then EvalExpr(env, nested, x, st) else Ok(Null, st)
  {
    assert EvalExpr(env, nested, BoolLiteral(b), st) == Ok(Bool(b), st);
    assert [BoolLiteral(b)][0] == BoolLiteral(b) && [BoolLiteral(b), x][0] == BoolLiteral(b) && [BoolLiteral(b), x][1] == x;
    assert EvalIffTest(env, nested, [BoolLiteral(b)], st) == Ok(Bool(b), st);
    assert EvalIffTest(env, nested, [BoolLiteral(b), x], st) == Ok(Bool(b), st);
  }

  /** `foreach $k => $v` binds the key and the value an item has, `foreach $v` the value; the
      operands the machine leaves for the bindings are the position, the key and, on top,
      the value. */
  lemma ForeachMeaning(p: Program, offset: Short, temps: seq<Value>, collection: Value, cursor: Value, st: Store,
                       key: string, value: string, item: ForeachItem)
    requires (p.env.foreachNext)(false, collection, cursor, st) == Some(item) && key != value
    ensures Apply(p, ForeachNext(offset), st, temps + [collection, cursor])
         == Continue(item.after, temps + [collection, item.cursor, item.key, item.value], 0)
    ensures var after := BindItem(Some(key), value, item);
            Global(after, key) == Some(item.key) && Global(after, value) == Some(item.value)
    ensures Global(BindItem(None, value, item), value) == Some(item.value)
  {
    var all := temps + [collection, cursor];
    assert all[|all| - 2] == collection && all[|all| - 1] == cursor;
    assert all[..|all| - 1] + [item.cursor, item.key, item.value] == temps + [collection, item.cursor, item.key, item.value];
  }

  /** A loop whose condition is false ends at once; otherwise its body runs, then its
      increments, and then the loop again. */
  lemma LoopMeaning(env: Env, nested: bool, cond: Expr, body: seq<Stmt>, increment: seq<Expr>, st: Store, fuel: nat)
    requires fuel > 0
    ensures var c := EvalExpr(env, nested, cond, st);
            EvalLoop(env, nested, cond, body, increment, st, fuel) ==
            if c.Error? then Stuck
            else if CountsAsFalse(c.v) then Finished(c.st)
            else
              match EvalBlock(env, nested, body, c.st, fuel)
              case Finished(st1) =>
                (match EvalEach(env, nested, increment, st1)
                 case Finished(st2) => EvalLoop(env, nested, cond, body, increment, st2, fuel - 1)
                 case other => other)
              case other => other
  {
    FalseIs();
    hide IsFalsy;
  }
}
