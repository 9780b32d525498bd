/** Compiled code computes what the evaluator says: simulation of expressions. */
module ExprSimulation {
  import opened Values
  import opened Instructions
  import opened Syntax
  import opened Machine
  import opened Codegen
  import opened CodeLayout
  import opened Unfolding
  import opened Evaluator

  function Max(a: nat, b: nat): nat { if a < b then b else a }

  /** Operand slots an expression uses at most, its result included. */
  function Need(e: Expr): (n: nat)
    ensures n >= 1
    decreases e, 1
  {
    match e
    case Binop(_, left, right) => Max(Need(right), 1 + Need(left))
    case Bridge(_, _, left, right) => Max(Need(left), 1 + Need(right))
    case And(left, right) => Max(Need(left), Need(right))
    case Or(left, right) => Max(Need(left), Need(right))
    case Not(operand) => Need(operand)
    case Minus(operand) => Need(operand)
    case Iff(args) => Max(1, NeedAny(args))
    case Assign(_, right) => Need(right)
    case OpAssign(_, _, right) => 1 + Need(right)
    case Call(_, args) => 1 + NeedArgs(args)
    case _ => 1
  }

  function NeedAny(es: seq<Expr>): nat
    decreases es, 0
  {
    if es == [] then 0 else Max(Need(es[0]), NeedAny(es[1..]))
  }

  function NeedArgs(args: seq<Expr>): nat
    decreases args, 0
  {
    if args == [] then 0
    else Max(Need(args[|args| - 1]), 1 + NeedArgs(args[..|args| - 1]))
  }

  lemma {:induction false} NeedAnyAt(es: seq<Expr>, k: nat)
    requires k < |es|
    ensures Need(es[k]) <= NeedAny(es)
  {
    if k > 0 { NeedAnyAt(es[1..], k - 1); }
  }

  /** The code `c` stands at `ip`, compiled without error into a pool the program
      keeps, and every pool index fits an operand. */
  ghost predicate Placed(p: Program, ip: nat, c: Code) {
    c.ok && At(p.code, ip, c.bytes) && Pooled(p, c.pool)
  }

  ghost predicate Pooled(p: Program, pool: seq<Value>) {
    pool <= p.constants && LiteralPool(p.constants) && |p.constants| <= SHORT_MAX + 1
  }

  lemma PooledPrefix(p: Program, pool: seq<Value>, longer: seq<Value>)
    requires pool <= longer && Pooled(p, longer)
    ensures Pooled(p, pool)
  {
  }

  predicate Room(below: seq<Value>, temps: seq<Value>, need: nat) {
    |below| + FIXED_SLOTS + |temps| + need <= STACK_MAX
  }

  /** After `n` steps from `ip`, a result has been pushed at `next`, or the run failed. */
  ghost predicate Pushes(p: Program, ip: nat, next: nat, below: seq<Value>, st: Store, temps: seq<Value>,
                         r: Result, n: nat)
  {
    Run(p, Config(ip, below, st, temps), n) ==
      match r
      case Error => Failed
      case Ok(v, after) => Running(Config(next, below, after, temps + [v]))
  }

  lemma RunZero(p: Program, m: Machine)
    ensures Run(p, m, 0) == Running(m)
  {
  }

  /** A run may be cut at any machine it passes. */
  lemma Join(p: Program, a: Machine, n: nat, b: Machine, k: nat)
    requires Run(p, a, n) == Running(b)
    ensures Run(p, a, n + k) == Run(p, b, k)
  {
    hide Run;
    RunCompose(p, a, n, k);
  }

  lemma PlacedParts(p: Program, ip: nat, a: Code, b: Code)
    requires Placed(p, ip, Then(a, b)) && a.pool <= b.pool
    ensures Placed(p, ip, a) && Placed(p, ip + |a.bytes|, b)
  {
    hide At, Pooled;
    PooledPrefix(p, a.pool, b.pool);
    ThenLayout(p.code, ip, a, b);
  }

  lemma PlacedPlus(p: Program, ip: nat, a: Code, i: Instr)
    requires Placed(p, ip, Plus(a, i))
    ensures Placed(p, ip, a) && At(p.code, ip + |a.bytes|, Encode(i))
  {
    hide At, Pooled;
    PlusLayout(p.code, ip, a, i);
  }

  /** One instruction that continues without a jump. */
  lemma Plain(p: Program, ip: nat, below: seq<Value>, st: Store, temps: seq<Value>, i: Instr,
              st': Store, temps': seq<Value>)
    requires At(p.code, ip, Encode(i)) && Pops(i) <= |temps|
    requires Apply(p, i, st, temps) == Continue(st', temps', 0)
    requires Room(below, temps', 0)
    ensures Run(p, Config(ip, below, st, temps), 1) == Running(Config(ip + Length(i), below, st', temps'))
  {
    hide Run;
    StepConfig(p, ip, below, st, temps, i);
  }

  lemma ConstantPlaced(p: Program, pool: seq<Value>, v: LiteralValue)
    requires Pooled(p, WithConstant(pool, v))
    ensures FindConstant(pool, v) <= SHORT_MAX && FindConstant(pool, v) < |p.constants|
    ensures p.constants[FindConstant(pool, v)] == v
  {
    assert pool <= p.constants;
    ConstantKept(pool, v);
  }

  lemma PushConstant(p: Program, ip: nat, below: seq<Value>, st: Store, temps: seq<Value>, pool: seq<Value>, v: LiteralValue)
    requires Placed(p, ip, PushConstantCode(pool, v)) && Room(below, temps, 1)
    ensures Pushes(p, ip, ip + 3, below, st, temps, Ok(v, st), 1)
  {
    hide Run;
    ConstantPlaced(p, pool, v);
    Plain(p, ip, below, st, temps, PushConst(ConstantOperand(pool, v)), st, temps + [v]);
  }

  function LoadInstr(name: string, pool: seq<Value>, nested: bool): (i: Instr)
    ensures Encode(i) == LoadCode(name, pool, nested).bytes && Pops(i) == 0
  {
    match SlotOf(name, nested)
    case Some(slot) => LoadLocal(slot)
    case None => LoadGlobal(NameOperand(pool, name))
  }

  lemma LoadApplies(p: Program, st: Store, temps: seq<Value>, pool: seq<Value>, nested: bool, name: string)
    requires Pooled(p, LoadCode(name, pool, nested).pool)
    ensures var (v, after) := LoadVariable(p.env, nested, name, st);
            Apply(p, LoadInstr(name, pool, nested), st, temps) == Continue(after, temps + [v], 0)
  {
    hide Encode, FindConstant, WithConstant;
    if SlotOf(name, nested).None? {
      ConstantPlaced(p, pool, Text(name));
    }
  }

  lemma LoadPushes(p: Program, ip: nat, below: seq<Value>, st: Store, temps: seq<Value>,
                   pool: seq<Value>, nested: bool, name: string)
    requires Placed(p, ip, LoadCode(name, pool, nested)) && Room(below, temps, 1)
    ensures var (v, after) := LoadVariable(p.env, nested, name, st);
            Pushes(p, ip, ip + |LoadCode(name, pool, nested).bytes|, below, st, temps, Ok(v, after), 1)
  {
    hide Run, Apply, Config, LoadVariable, LoadInstr, LoadCode, Encode;
    var (v, after) := LoadVariable(p.env, nested, name, st);
    LoadApplies(p, st, temps, pool, nested, name);
    Plain(p, ip, below, st, temps, LoadInstr(name, pool, nested), after, temps + [v]);
  }

  lemma StoreApplies(p: Program, st: Store, temps: seq<Value>, v: Value, pool: seq<Value>, nested: bool, name: string)
    requires Pooled(p, StoreCode(name, pool, nested).pool)
    ensures var i := StoreInstr(name, pool, nested);
            Apply(p, i, st, temps + [v]) == Continue(StoreVariable(nested, name, v, st), temps + [v], 0)
  {
    hide Encode, FindConstant, WithConstant;
    if SlotOf(name, nested).None? {
      ConstantPlaced(p, pool, Text(name));
    }
  }

  function StoreInstr(name: string, pool: seq<Value>, nested: bool): (i: Instr)
    ensures Encode(i) == StoreCode(name, pool, nested).bytes && Pops(i) == 1
  {
    match SlotOf(name, nested)
    case Some(slot) => StoreLocal(slot)
    case None => StoreGlobal(NameOperand(pool, name))
  }

  lemma StoreKeeps(p: Program, ip: nat, below: seq<Value>, st: Store, temps: seq<Value>, v: Value,
                   pool: seq<Value>, nested: bool, name: string)
    requires Placed(p, ip, StoreCode(name, pool, nested)) && Room(below, temps, 1)
    ensures Run(p, Config(ip, below, st, temps + [v]), 1) ==
            Running(Config(ip + |StoreCode(name, pool, nested).bytes|, below,
                           StoreVariable(nested, name, v, st), temps + [v]))
  {
    hide Run, Apply, Config, StoreVariable, StoreInstr, StoreCode, Encode;
    StoreApplies(p, st, temps, v, pool, nested, name);
    Plain(p, ip, below, st, temps + [v], StoreInstr(name, pool, nested),
          StoreVariable(nested, name, v, st), temps + [v]);
  }

  function ReferenceInstr(name: string, pool: seq<Value>, nested: bool): (i: Instr)
    ensures Encode(i) == ReferenceCode(name, pool, nested).bytes && Pops(i) == 0
  {
    match SlotOf(name, nested)
    case Some(slot) => ReferenceLocal(slot)
    case None => ReferenceGlobal(ConstantOperand(pool, Text(name)))
  }

  lemma ReferenceApplies(p: Program, st: Store, temps: seq<Value>, pool: seq<Value>, nested: bool, name: string)
    requires Pooled(p, ReferenceCode(name, pool, nested).pool)
    ensures var (v, after) := EvalReference(p.env, nested, name, st);
            Apply(p, ReferenceInstr(name, pool, nested), st, temps) == Continue(after, temps + [v], 0)
  {
    hide Encode, FindConstant, WithConstant;
    if SlotOf(name, nested).None? {
      ConstantPlaced(p, pool, Text(name));
    }
  }

  lemma ReferencePushes(p: Program, ip: nat, below: seq<Value>, st: Store, temps: seq<Value>,
                        pool: seq<Value>, nested: bool, name: string)
    requires Placed(p, ip, ReferenceCode(name, pool, nested)) && Room(below, temps, 1)
    ensures var (v, after) := EvalReference(p.env, nested, name, st);
            Pushes(p, ip, ip + |ReferenceCode(name, pool, nested).bytes|, below, st, temps, Ok(v, after), 1)
  {
    hide Run, Apply, Config, EvalReference, ReferenceInstr, ReferenceCode, Encode;
    var (v, after) := EvalReference(p.env, nested, name, st);
    ReferenceApplies(p, st, temps, pool, nested, name);
    Plain(p, ip, below, st, temps, ReferenceInstr(name, pool, nested), after, temps + [v]);
  }

  /** An operator replaces its two operands, or stops the run. */
  lemma BinaryStep(p: Program, ip: nat, below: seq<Value>, st: Store, temps: seq<Value>, op: BinaryOp, l: Value, r: Value)
    requires At(p.code, ip, Encode(Binary(op))) && Room(below, temps, 1)
    ensures Run(p, Config(ip, below, st, temps + [l, r]), 1) ==
            match BinaryResult(p.env.host, op, l, r)
            case None => Failed
            case Some(v) => Running(Config(ip + 1, below, st, temps + [v]))
  {
    hide Run, BinaryResult;
    var operands := temps + [l, r];
    assert operands[..|operands| - 2] == temps;
    StepConfig(p, ip, below, st, operands, Binary(op));
  }

  lemma UnaryStep(p: Program, ip: nat, below: seq<Value>, st: Store, temps: seq<Value>, i: Instr, v: Value, w: Value)
    requires At(p.code, ip, Encode(i)) && Room(below, temps, 1)
    requires Pops(i) == 1 && Apply(p, i, st, temps + [v]) == Continue(st, (temps + [v])[..|temps|] + [w], 0)
    ensures Run(p, Config(ip, below, st, temps + [v]), 1) == Running(Config(ip + Length(i), below, st, temps + [w]))
  {
    hide Run, Apply;
    assert (temps + [v])[..|temps|] == temps;
    Plain(p, ip, below, st, temps + [v], i, st, temps + [w]);
  }

  lemma PopStep(p: Program, ip: nat, below: seq<Value>, st: Store, temps: seq<Value>, v: Value)
    requires At(p.code, ip, Encode(Pop)) && Room(below, temps, 0)
    ensures Run(p, Config(ip, below, st, temps + [v]), 1) == Running(Config(ip + 1, below, st, temps))
  {
    hide Run;
    assert (temps + [v])[..|temps|] == temps;
    Plain(p, ip, below, st, temps + [v], Pop, st, temps);
  }

  /** Both operands stand on the stack, the left one on top: SWAP and the operator. */
  lemma SwapBinary(p: Program, ip: nat, below: seq<Value>, st: Store, temps: seq<Value>, op: BinaryOp, l: Value, r: Value)
    requires At(p.code, ip, Encode(Swap)) && At(p.code, ip + 1, Encode(Binary(op))) && Room(below, temps, 2)
    ensures Run(p, Config(ip, below, st, temps + [r] + [l]), 2) ==
            match BinaryResult(p.env.host, op, l, r)
            case None => Failed
            case Some(v) => Running(Config(ip + 2, below, st, temps + [v]))
  {
    hide Run, BinaryResult;
    var operands := temps + [r] + [l];
    assert operands[..|operands| - 2] + [l, r] == temps + [l, r];
    Plain(p, ip, below, st, operands, Swap, st, temps + [l, r]);
    BinaryStep(p, ip + 1, below, st, temps, op, l, r);
    Join(p, Config(ip, below, st, operands), 1, Config(ip + 1, below, st, temps + [l, r]), 1);
  }

  function BridgeInstr(name: string, negate: bool, pool: seq<Value>): (i: Instr)
    ensures Encode(i) == BridgeCode(name, negate, pool).bytes && Pops(i) == 2 && Length(i) == 3
  {
    var operand := ConstantOperand(pool, Text(name));
    if negate then NegatedBinaryPredicate(operand) else BinaryPredicate(operand)
  }

  lemma BridgeApplies(p: Program, st: Store, temps: seq<Value>, pool: seq<Value>, name: string, negate: bool, l: Value, r: Value)
    requires Pooled(p, BridgeCode(name, negate, pool).pool)
    ensures var (holds, after) := (p.env.predicateBridge)(name, l, r, st);
            Apply(p, BridgeInstr(name, negate, pool), st, temps + [l] + [r]) ==
            Continue(after, temps + [Bool(holds != negate)], 0)
  {
    ConstantPlaced(p, pool, Text(name));
    var operands := temps + [l] + [r];
    assert operands[..|operands| - 2] == temps;
  }

  lemma BridgeStep(p: Program, ip: nat, below: seq<Value>, st: Store, temps: seq<Value>, pool: seq<Value>,
                   name: string, negate: bool, l: Value, r: Value)
    requires Placed(p, ip, BridgeCode(name, negate, pool)) && Room(below, temps, 2)
    ensures var (holds, after) := (p.env.predicateBridge)(name, l, r, st);
            Run(p, Config(ip, below, st, temps + [l] + [r]), 1) ==
            Running(Config(ip + 3, below, after, temps + [Bool(holds != negate)]))
    ensures |BridgeCode(name, negate, pool).bytes| == 3
  {
    hide Run, Apply, Config, BridgeInstr, BridgeCode, Encode;
    var (holds, after) := (p.env.predicateBridge)(name, l, r, st);
    BridgeApplies(p, st, temps, pool, name, negate, l, r);
    Plain(p, ip, below, st, temps + [l] + [r], BridgeInstr(name, negate, pool), after, temps + [Bool(holds != negate)]);
  }

  /** The three parts of a short circuit, and what its jump does on either side. */
  lemma ShortCircuitParts(p: Program, ip: nat, l: Code, isAnd: bool, r: Code)
    requires Placed(p, ip, ShortCircuit(l, isAnd, r)) && l.pool <= r.pool
    ensures |r.bytes| <= SHORT_MAX
    ensures var jump := if isAnd then AndJump(|r.bytes|) else OrJump(|r.bytes|);
            && Placed(p, ip, l)
            && At(p.code, ip + |l.bytes|, Encode(jump))
            && Placed(p, ip + |l.bytes| + 3, r)
    ensures |ShortCircuit(l, isAnd, r).bytes| == |l.bytes| + 3 + |r.bytes|
  {
    hide At, Pooled, Encode;
    PooledPrefix(p, l.pool, r.pool);
    ShortCircuitLayout(p.code, ip, l, isAnd, r);
  }

  lemma ShortCircuitStep(p: Program, ip: nat, below: seq<Value>, st: Store, temps: seq<Value>,
                         isAnd: bool, distance: Short, v: Value)
    requires At(p.code, ip, Encode(if isAnd then AndJump(distance) else OrJump(distance)))
    requires Room(below, temps, 1)
    ensures Run(p, Config(ip, below, st, temps + [v]), 1) ==
            Running(if IsFalsy(v) == isAnd then Config(ip + 3 + distance, below, st, temps + [v])
                    else Config(ip + 3, below, st, temps))
  {
    hide Run;
    assert (temps + [v])[..|temps|] == temps;
    StepConfig(p, ip, below, st, temps + [v], if isAnd then AndJump(distance) else OrJump(distance));
  }

  /** The parts of condition, JUMP_IF_FALSE, POP, first, JUMP, POP, second. */
  lemma BranchParts(p: Program, ip: nat, c: Code, first: Code, second: Code)
    requires Placed(p, ip, Branch(c, first, second)) && c.pool <= first.pool <= second.pool
    ensures |first.bytes| + 4 <= SHORT_MAX && |second.bytes| + 1 <= SHORT_MAX
    ensures var a := ip + |c.bytes|;
            var b := a + 4 + |first.bytes|;
            && Placed(p, ip, c)
            && At(p.code, a, Encode(JumpIfFalse(|first.bytes| + 4)))
            && At(p.code, a + 3, Encode(Pop))
            && Placed(p, a + 4, first)
            && At(p.code, b, Encode(Jump(|second.bytes| + 1)))
            && At(p.code, b + 3, Encode(Pop))
            && Placed(p, b + 4, second)
    ensures |Branch(c, first, second).bytes| == |c.bytes| + |first.bytes| + |second.bytes| + 8
  {
    hide Encode, Pooled, At;
    PooledPrefix(p, first.pool, second.pool);
    PooledPrefix(p, c.pool, first.pool);
    BranchLayout(p.code, ip, c, first, second);
  }

  /** JUMP_IF_FALSE and the POP that follows it on either side. */
  lemma TestAndPop(p: Program, ip: nat, below: seq<Value>, st: Store, temps: seq<Value>, distance: Short, v: Value)
    requires At(p.code, ip, Encode(JumpIfFalse(distance)))
    requires At(p.code, ip + 3, Encode(Pop)) && At(p.code, ip + 3 + distance, Encode(Pop))
    requires Room(below, temps, 1)
    ensures Run(p, Config(ip, below, st, temps + [v]), 2) ==
            Running(Config(if IsFalsy(v) then ip + 3 + distance + 1 else ip + 4, below, st, temps))
  {
    hide Run;
    StepConfig(p, ip, below, st, temps + [v], JumpIfFalse(distance));
    var next := if IsFalsy(v) then ip + 3 + distance else ip + 3;
    PopStep(p, next, below, st, temps, v);
    Join(p, Config(ip, below, st, temps + [v]), 1, Config(next, below, st, temps + [v]), 1);
  }

  lemma JumpStep(p: Program, ip: nat, below: seq<Value>, st: Store, temps: seq<Value>, distance: Short)
    requires At(p.code, ip, Encode(Jump(distance))) && Room(below, temps, 0)
    ensures Run(p, Config(ip, below, st, temps), 1) == Running(Config(ip + 3 + distance, below, st, temps))
  {
    hide Run;
    StepConfig(p, ip, below, st, temps, Jump(distance));
  }

  lemma {:induction false} ReversedTwice(s: seq<Value>)
    ensures ReversedSeq(ReversedSeq(s)) == s
  {
    if s != [] {
      ReversedSnoc(ReversedSeq(s[1..]), s[0]);
      ReversedTwice(s[1..]);
    }
  }

  lemma {:induction false} ReversedSnoc(s: seq<Value>, v: Value)
    ensures ReversedSeq(s + [v]) == [v] + ReversedSeq(s)
  {
    if s == [] {
      assert s + [v] == [v];
    } else {
      assert (s + [v])[1..] == s[1..] + [v];
      ReversedSnoc(s[1..], v);
    }
  }

  /** The arguments lie on the stack with the first one on top; REVERSE puts them
      into source order. */
  lemma ReverseStep(p: Program, ip: nat, below: seq<Value>, st: Store, temps: seq<Value>, vs: seq<Value>) returns (n: nat)
    requires |vs| <= 255 && Room(below, temps, |vs|)
    requires |vs| > 1 ==> At(p.code, ip, Encode(Reverse(|vs|)))
    ensures Run(p, Config(ip, below, st, temps + ReversedSeq(vs)), n) ==
            Running(Config(if |vs| > 1 then ip + 2 else ip, below, st, temps + vs))
  {
    hide Run;
    if |vs| > 1 {
      var operands := temps + ReversedSeq(vs);
      assert operands[..|operands| - |vs|] == temps;
      assert operands[|operands| - |vs|..] == ReversedSeq(vs);
      ReversedTwice(vs);
      Plain(p, ip, below, st, operands, Reverse(|vs|), st, temps + vs);
      n := 1;
    } else {
      assert ReversedSeq(vs) == vs by { if |vs| == 1 { assert vs == [vs[0]]; } }
      n := 0;
      RunZero(p, Config(ip, below, st, temps + ReversedSeq(vs)));
    }
  }

  lemma CallApplies(p: Program, st: Store, temps: seq<Value>, pool: seq<Value>, name: string, target: Value, vs: seq<Value>)
    requires Pooled(p, WithConstant(pool, Text(name))) && |vs| <= 255
    ensures Apply(p, CallNamed(|vs|, ConstantOperand(pool, Text(name))), st, temps + [target] + vs) ==
            match (p.env.call)(name, target, vs, st)
            case None => Fault
            case Some((v, after)) => Continue(after, temps + [v], 0)
  {
    ConstantPlaced(p, pool, Text(name));
    var ready := temps + [target] + vs;
    assert ready[..|temps|] == temps && ready[|temps| + 1..] == vs;
  }

  lemma FinishCall(p: Program, ip: nat, below: seq<Value>, st: Store, temps: seq<Value>, pool: seq<Value>,
                   name: string, target: Value, vs: seq<Value>)
    requires |vs| <= 255 && Room(below, temps, 1 + |vs|)
    requires At(p.code, ip, Encode(CallNamed(|vs|, ConstantOperand(pool, Text(name)))))
    requires Pooled(p, WithConstant(pool, Text(name)))
    ensures Run(p, Config(ip, below, st, temps + [target] + vs), 1) ==
            match (p.env.call)(name, target, vs, st)
            case None => Failed
            case Some((v, after)) => Running(Config(ip + 4, below, after, temps + [v]))
  {
    hide Run, Apply, Config;
    CallApplies(p, st, temps, pool, name, target, vs);
    StepConfig(p, ip, below, st, temps + [target] + vs, CallNamed(|vs|, ConstantOperand(pool, Text(name))));
  }

  lemma CallLengths(count: Byte, index: Short)
    ensures |Encode(Reverse(count))| == 2 && |Encode(CallNamed(count, index))| == 4
  {
  }

  /** The call sequence behind the arguments. */
  lemma CallStep(p: Program, ip: nat, below: seq<Value>, st: Store, temps: seq<Value>, pool: seq<Value>,
                 name: string, target: Value, vs: seq<Value>)
    returns (n: nat)
    requires Placed(p, ip, CallCode(name, |vs|, pool)) && Room(below, temps, 1 + |vs|)
    ensures Run(p, Config(ip, below, st, temps + [target] + ReversedSeq(vs)), n) ==
            match (p.env.call)(name, target, vs, st)
            case None => Failed
            case Some((v, after)) =>
              Running(Config(ip + |CallCode(name, |vs|, pool).bytes|, below, after, temps + [v]))
  {
    hide Run, ReversedSeq, Encode, Config, LiteralPool, Apply;
    var reverse := if |vs| > 1 then Encode(Reverse(|vs|)) else [];
    var call := CallNamed(|vs|, ConstantOperand(pool, Text(name)));
    CallLengths(|vs|, ConstantOperand(pool, Text(name)));
    AtSplit(p.code, ip, reverse, Encode(call));
    n := ReverseStep(p, ip, below, st, temps + [target], vs);
    FinishCall(p, ip + |reverse|, below, st, temps, pool, name, target, vs);
    Join(p, Config(ip, below, st, temps + [target] + ReversedSeq(vs)), n,
         Config(ip + |reverse|, below, st, temps + [target] + vs), 1);
    n := n + 1;
  }

  /** The code of any expression, wherever it stands and whatever lies on the stack,
      pushes the value the evaluator gives and leaves the store the evaluator leaves;
      when the evaluator stops on an error, so does the run. */
  lemma {:induction false} ExprRuns(p: Program, nested: bool, e: Expr, pool: seq<Value>, ip: nat,
                  below: seq<Value>, st: Store, temps: seq<Value>)
    returns (n: nat)
    requires Placed(p, ip, CompileExpr(e, pool, nested)) && Room(below, temps, Need(e))
    ensures Pushes(p, ip, ip + |CompileExpr(e, pool, nested).bytes|, below, st, temps,
                   EvalExpr(p.env, nested, e, st), n)
    decreases e, 2
  {
    hide Run, Config, EvalExpr, CompileExpr, Need, Placed, Pushes;
    match e
    case Binop(_, _, _) => n := BinopRuns(p, nested, e, pool, ip, below, st, temps);
    case Bridge(_, _, _, _) => n := BridgeRuns(p, nested, e, pool, ip, below, st, temps);
    case And(_, _) => n := ShortCircuitRuns(p, nested, e, pool, ip, below, st, temps);
    case Or(_, _) => n := ShortCircuitRuns(p, nested, e, pool, ip, below, st, temps);
    case Not(_) => n := UnaryRuns(p, nested, e, pool, ip, below, st, temps);
    case Minus(_) => n := UnaryRuns(p, nested, e, pool, ip, below, st, temps);
    case Iff(args) =>
      if |args| == 0 {
        n := LeafRuns(p, nested, e, pool, ip, below, st, temps);
      } else {
        n := IffRuns(p, nested, e, pool, ip, below, st, temps);
      }
    case Assign(_, _) => n := AssignRuns(p, nested, e, pool, ip, below, st, temps);
    case OpAssign(_, _, _) => n := OpAssignRuns(p, nested, e, pool, ip, below, st, temps);
    case Bump(_, _) => n := BumpRuns(p, nested, e, pool, ip, below, st, temps);
    case Call(_, _) => n := CallRuns(p, nested, e, pool, ip, below, st, temps);
    case _ => n := LeafRuns(p, nested, e, pool, ip, below, st, temps);
  }

  predicate IsLeaf(e: Expr) {
    e.Literal? || e.NullLiteral? || e.BoolLiteral? || e.Variable? || (e.Iff? && e.args == [])
  }

  /** Expressions that are one instruction. */
  lemma {:induction false} LeafRuns(p: Program, nested: bool, e: Expr, pool: seq<Value>, ip: nat,
                  below: seq<Value>, st: Store, temps: seq<Value>)
    returns (n: nat)
    requires IsLeaf(e)
    requires Placed(p, ip, CompileExpr(e, pool, nested)) && Room(below, temps, Need(e))
    ensures Pushes(p, ip, ip + |CompileExpr(e, pool, nested).bytes|, below, st, temps,
                   EvalExpr(p.env, nested, e, st), n)
    decreases e, 0
  {
    hide Run, Config, LoadCode, LoadVariable;
    n := 1;
    match e
    case Literal(v) => PushConstant(p, ip, below, st, temps, pool, v);
    case BoolLiteral(b) =>
      Plain(p, ip, below, st, temps, if b then PushTrue else PushFalse, st, temps + [Bool(b)]);
    case Variable(name) => LoadPushes(p, ip, below, st, temps, pool, nested, name);
    case _ => Plain(p, ip, below, st, temps, PushNull, st, temps + [Null]);
  }

  /** Right operand, left operand, SWAP, operator, given what the operands do. */
  lemma BinopGlue(p: Program, ip: nat, r: Code, l: Code, op: BinaryOp, below: seq<Value>, st: Store, temps: seq<Value>,
                  right: Result, n: nat, left: Result, k: nat)
    returns (total: nat)
    requires Placed(p, ip, Plus(Plus(Then(r, l), Swap), Binary(op))) && Room(below, temps, 2)
    requires Pushes(p, ip, ip + |r.bytes|, below, st, temps, right, n)
    requires right.Ok? ==>
      Pushes(p, ip + |r.bytes|, ip + |r.bytes| + |l.bytes|, below, right.st, temps + [right.v], left, k)
    ensures Pushes(p, ip, ip + |Plus(Plus(Then(r, l), Swap), Binary(op)).bytes|, below, st, temps,
                   CombineResult(p.env.host, op, right, left), total)
  {
    hide Run, Config, Encode, At, Pooled, BinaryResult;
    PlacedPlus(p, ip, Plus(Then(r, l), Swap), Binary(op));
    PlacedPlus(p, ip, Then(r, l), Swap);
    SimpleLengths(op);
    var start := Config(ip, below, st, temps);
    total := n;
    if right.Ok? {
      var mid := ip + |r.bytes|;
      Join(p, start, n, Config(mid, below, right.st, temps + [right.v]), k);
      total := n + k;
      if left.Ok? {
        var at := mid + |l.bytes|;
        SwapBinary(p, at, below, left.st, temps, op, left.v, right.v);
        Join(p, start, total, Config(at, below, left.st, temps + [right.v] + [left.v]), 2);
        total := total + 2;
      }
    }
  }

  function CombineResult(host: Host, op: BinaryOp, right: Result, left: Result): Result {
    if right.Error? || left.Error? then Error
    else
      match BinaryResult(host, op, left.v, right.v)
      case None => Error
      case Some(v) => Ok(v, left.st)
  }

  /** The right operand first, then the left one, SWAP, the operator. */
  lemma {:induction false} BinopRuns(p: Program, nested: bool, e: Expr, pool: seq<Value>, ip: nat,
                  below: seq<Value>, st: Store, temps: seq<Value>)
    returns (n: nat)
    requires e.Binop?
    requires Placed(p, ip, CompileExpr(e, pool, nested)) && Room(below, temps, Need(e))
    ensures Pushes(p, ip, ip + |CompileExpr(e, pool, nested).bytes|, below, st, temps,
                   EvalExpr(p.env, nested, e, st), n)
    decreases e, 0
  {
    hide Run, Config, Encode, At, Placed, Pushes, LoadCode, StoreCode, LoadVariable, StoreVariable, BinaryResult, Plus, Then, BridgeCode, ShortCircuit, CallCode, Branch, CompileExpr;
    BinopCode(e.op, e.left, e.right, pool, nested);
    var r := CompileExpr(e.right, pool, nested);
    var l := CompileExpr(e.left, r.pool, nested);
    var c := Plus(Plus(Then(r, l), Swap), Binary(e.op));
    BinopParts(p, ip, r, l, e.op);
    var right := EvalExpr(p.env, nested, e.right, st);
    var left, k := Error, 0;
    n := ExprRuns(p, nested, e.right, pool, ip, below, st, temps);
    if right.Ok? {
      left := EvalExpr(p.env, nested, e.left, right.st);
      k := ExprRuns(p, nested, e.left, r.pool, ip + |r.bytes|, below, right.st, temps + [right.v]);
    }
    assert EvalExpr(p.env, nested, e, st) == CombineResult(p.env.host, e.op, right, left);
    n := BinopGlue(p, ip, r, l, e.op, below, st, temps, right, n, left, k);
  }

  lemma BinopParts(p: Program, ip: nat, r: Code, l: Code, op: BinaryOp)
    requires Placed(p, ip, Plus(Plus(Then(r, l), Swap), Binary(op))) && r.pool <= l.pool
    ensures Placed(p, ip, r) && Placed(p, ip + |r.bytes|, l)
  {
    hide Encode, At, Pooled;
    PlacedPlus(p, ip, Plus(Then(r, l), Swap), Binary(op));
    PlacedPlus(p, ip, Then(r, l), Swap);
    PlacedParts(p, ip, r, l);
  }

  lemma BridgeGlue(p: Program, ip: nat, l: Code, r: Code, name: string, negate: bool,
                   below: seq<Value>, st: Store, temps: seq<Value>, left: Result, n: nat, right: Result, k: nat)
    returns (total: nat)
    requires Placed(p, ip, Then(Then(l, r), BridgeCode(name, negate, r.pool))) && Room(below, temps, 2)
    requires Pushes(p, ip, ip + |l.bytes|, below, st, temps, left, n)
    requires left.Ok? ==>
      Pushes(p, ip + |l.bytes|, ip + |l.bytes| + |r.bytes|, below, left.st, temps + [left.v], right, k)
    ensures Pushes(p, ip, ip + |Then(Then(l, r), BridgeCode(name, negate, r.pool)).bytes|, below, st, temps,
                   BridgeResult(p.env, name, negate, left, right), total)
  {
    hide Run, Config, Encode, At, Pooled, BridgeCode;
    PlacedParts(p, ip, Then(l, r), BridgeCode(name, negate, r.pool));
    var start := Config(ip, below, st, temps);
    total := n;
    if left.Ok? {
      var mid := ip + |l.bytes|;
      Join(p, start, n, Config(mid, below, left.st, temps + [left.v]), k);
      total := n + k;
      if right.Ok? {
        var at := mid + |r.bytes|;
        BridgeStep(p, at, below, right.st, temps, r.pool, name, negate, left.v, right.v);
        Join(p, start, total, Config(at, below, right.st, temps + [left.v] + [right.v]), 1);
        total := total + 1;
      }
    }
  }

  function BridgeResult(env: Env, name: string, negate: bool, left: Result, right: Result): Result {
    if left.Error? || right.Error? then Error
    else
      var (holds, after) := (env.predicateBridge)(name, left.v, right.v, right.st);
      Ok(Bool(holds != negate), after)
  }

  /** Predicate bridges evaluate their left operand first. */
  lemma {:induction false} BridgeRuns(p: Program, nested: bool, e: Expr, pool: seq<Value>, ip: nat,
                  below: seq<Value>, st: Store, temps: seq<Value>)
    returns (n: nat)
    requires e.Bridge?
    requires Placed(p, ip, CompileExpr(e, pool, nested)) && Room(below, temps, Need(e))
    ensures Pushes(p, ip, ip + |CompileExpr(e, pool, nested).bytes|, below, st, temps,
                   EvalExpr(p.env, nested, e, st), n)
    decreases e, 0
  {
    hide Run, Config, Encode, At, Placed, Pushes, LoadCode, StoreCode, LoadVariable, StoreVariable, BinaryResult, Plus, Then, BridgeCode, ShortCircuit, CallCode, Branch, CompileExpr;
    BridgeExprCode(e.name, e.negate, e.left, e.right, pool, nested);
    var l := CompileExpr(e.left, pool, nested);
    var r := CompileExpr(e.right, l.pool, nested);
    ThenParts(p, ip, l, r, BridgeCode(e.name, e.negate, r.pool));
    var left := EvalExpr(p.env, nested, e.left, st);
    var right, k := Error, 0;
    n := ExprRuns(p, nested, e.left, pool, ip, below, st, temps);
    if left.Ok? {
      right := EvalExpr(p.env, nested, e.right, left.st);
      k := ExprRuns(p, nested, e.right, l.pool, ip + |l.bytes|, below, left.st, temps + [left.v]);
    }
    assert EvalExpr(p.env, nested, e, st) == BridgeResult(p.env, e.name, e.negate, left, right);
    n := BridgeGlue(p, ip, l, r, e.name, e.negate, below, st, temps, left, n, right, k);
  }

  lemma ThenParts(p: Program, ip: nat, a: Code, b: Code, c: Code)
    requires Placed(p, ip, Then(Then(a, b), c)) && a.pool <= b.pool <= c.pool
    ensures Placed(p, ip, a) && Placed(p, ip + |a.bytes|, b) && Placed(p, ip + |a.bytes| + |b.bytes|, c)
  {
    hide At, Pooled;
    PlacedParts(p, ip, Then(a, b), c);
    PlacedParts(p, ip, a, b);
  }

  lemma ShortCircuitGlue(p: Program, ip: nat, l: Code, isAnd: bool, r: Code, below: seq<Value>, st: Store,
                         temps: seq<Value>, left: Result, n: nat, right: Result, k: nat)
    returns (total: nat)
    requires Placed(p, ip, ShortCircuit(l, isAnd, r)) && l.pool <= r.pool && Room(below, temps, 1)
    requires Pushes(p, ip, ip + |l.bytes|, below, st, temps, left, n)
    requires left.Ok? && IsFalsy(left.v) != isAnd ==>
      Pushes(p, ip + |l.bytes| + 3, ip + |l.bytes| + 3 + |r.bytes|, below, left.st, temps, right, k)
    ensures Pushes(p, ip, ip + |ShortCircuit(l, isAnd, r).bytes|, below, st, temps,
                   if left.Ok? && IsFalsy(left.v) != isAnd then right else left, total)
  {
    hide Run, Config, Encode, At, Pooled, ShortCircuit;
    ShortCircuitParts(p, ip, l, isAnd, r);
    var start := Config(ip, below, st, temps);
    total := n;
    if left.Ok? {
      var mid := ip + |l.bytes|;
      ShortCircuitStep(p, mid, below, left.st, temps, isAnd, |r.bytes|, left.v);
      Join(p, start, n, Config(mid, below, left.st, temps + [left.v]), 1);
      total := n + 1;
      if IsFalsy(left.v) != isAnd {
        Join(p, start, total, Config(mid + 3, below, left.st, temps), k);
        total := total + k;
      }
    }
  }

  /** `&&` and `||`: the right operand runs only when the left one does not decide. */
  lemma {:induction false} ShortCircuitRuns(p: Program, nested: bool, e: Expr, pool: seq<Value>, ip: nat,
                  below: seq<Value>, st: Store, temps: seq<Value>)
    returns (n: nat)
    requires e.And? || e.Or?
    requires Placed(p, ip, CompileExpr(e, pool, nested)) && Room(below, temps, Need(e))
    ensures Pushes(p, ip, ip + |CompileExpr(e, pool, nested).bytes|, below, st, temps,
                   EvalExpr(p.env, nested, e, st), n)
    decreases e, 0
  {
    hide Run, Config, Encode, At, Placed, Pushes, LoadCode, StoreCode, LoadVariable, StoreVariable, BinaryResult, Plus, Then, BridgeCode, ShortCircuit, CallCode, Branch, CompileExpr;
    LogicalCode(e.left, e.right, pool, nested);
    var l := CompileExpr(e.left, pool, nested);
    var r := CompileExpr(e.right, l.pool, nested);
    ShortCircuitParts(p, ip, l, e.And?, r);
    var left := EvalExpr(p.env, nested, e.left, st);
    var right, k := Error, 0;
    n := ExprRuns(p, nested, e.left, pool, ip, below, st, temps);
    if left.Ok? && IsFalsy(left.v) != e.And? {
      right := EvalExpr(p.env, nested, e.right, left.st);
      k := ExprRuns(p, nested, e.right, l.pool, ip + |l.bytes| + 3, below, left.st, temps);
    }
    n := ShortCircuitGlue(p, ip, l, e.And?, r, below, st, temps, left, n, right, k);
  }

  /** `!` and unary minus. */
  lemma {:induction false} UnaryRuns(p: Program, nested: bool, e: Expr, pool: seq<Value>, ip: nat,
                  below: seq<Value>, st: Store, temps: seq<Value>)
    returns (n: nat)
    requires e.Not? || e.Minus?
    requires Placed(p, ip, CompileExpr(e, pool, nested)) && Room(below, temps, Need(e))
    ensures Pushes(p, ip, ip + |CompileExpr(e, pool, nested).bytes|, below, st, temps,
                   EvalExpr(p.env, nested, e, st), n)
    decreases e, 0
  {
    hide Run, Config, Encode, At, Pooled, LoadCode, StoreCode, LoadVariable, StoreVariable, BinaryResult, Apply, CompileExpr;
    UnaryCode(e.operand, pool, nested);
    var c := CompileExpr(e.operand, pool, nested);
    var i := if e.Not? then Instr.Not else Negate;
    var start := Config(ip, below, st, temps);
    PlacedPlus(p, ip, c, i);
    assert |Encode(i)| == 1 by { SimpleLengths(Add); }
    n := ExprRuns(p, nested, e.operand, pool, ip, below, st, temps);
    var operand := EvalExpr(p.env, nested, e.operand, st);
    if operand.Ok? {
      var w := if e.Not? then Bool(IsFalsy(operand.v)) else NegateResult(p.env.host, operand.v);
      UnaryApplies(p, operand.st, temps, i, operand.v);
      UnaryStep(p, ip + |c.bytes|, below, operand.st, temps, i, operand.v, w);
      Join(p, start, n, Config(ip + |c.bytes|, below, operand.st, temps + [operand.v]), 1);
      n := n + 1;
    }
  }

  lemma UnaryApplies(p: Program, st: Store, temps: seq<Value>, i: Instr, v: Value)
    requires i.Not? || i.Negate? || i.Increment? || i.Decrement?
    ensures var w := match i
              case Not => Bool(IsFalsy(v))
              case Negate => NegateResult(p.env.host, v)
              case _ => StepResult(p.env.host, v, i.Increment?);
            Apply(p, i, st, temps + [v]) == Continue(st, (temps + [v])[..|temps|] + [w], 0)
  {
  }

  /** `iff`: one of two branches, with defaults 1 and null; a condition that is no
      predicate counts as false. */
  lemma {:induction false} IffRuns(p: Program, nested: bool, e: Expr, pool: seq<Value>, ip: nat,
                  below: seq<Value>, st: Store, temps: seq<Value>)
    returns (n: nat)
    requires e.Iff? && |e.args| > 0
    requires Placed(p, ip, CompileExpr(e, pool, nested)) && Room(below, temps, Need(e))
    ensures Pushes(p, ip, ip + |CompileExpr(e, pool, nested).bytes|, below, st, temps,
                   EvalExpr(p.env, nested, e, st), n)
    decreases e, 1
  {
    hide Run, Config, Encode, At, Pooled, LoadCode, StoreCode, LoadVariable, StoreVariable, BinaryResult, Apply, CompileExpr;
    IffCode(e.args, pool, nested);
    hide Branch, IffTest, IffFirst, IffSecond, EvalIffTest, EvalIffFirst, EvalIffSecond, Pushes, Placed;
    var c := IffTest(e.args, pool, nested);
    var t := IffFirst(e.args, c.pool, nested);
    var f := IffSecond(e.args, t.pool, nested);
    BranchParts(p, ip, c, t, f);
    n := IffTestRuns(p, nested, e.args, pool, ip, below, st, temps);
    var test := EvalIffTest(p.env, nested, e.args, st);
    if test.Error? {
      PushesError(p, ip, ip + |c.bytes|, ip + |Branch(c, t, f).bytes|, below, st, temps, n);
      return;
    }
    var a := ip + |c.bytes|;
    var b := a + 4 + |t.bytes|;
    TestAndPop(p, a, below, test.st, temps, |t.bytes| + 4, test.v);
    if IsFalsy(test.v) {
      var k := IffSecondRuns(p, nested, e.args, t.pool, b + 4, below, test.st, temps);
      n := BranchTaken(p, ip, a, b + 4, b + 4 + |f.bytes|, below, st, temps, test, n,
                       EvalIffSecond(p.env, nested, e.args, test.st), k);
    } else {
      var k := IffFirstRuns(p, nested, e.args, c.pool, a + 4, below, test.st, temps);
      var first := EvalIffFirst(p.env, nested, e.args, test.st);
      n := BranchTaken(p, ip, a, a + 4, b, below, st, temps, test, n, first, k);
      n := ThenJump(p, ip, b, below, st, temps, first, n, |f.bytes| + 1);
    }
  }

  lemma PushesError(p: Program, ip: nat, next: nat, next': nat, below: seq<Value>, st: Store, temps: seq<Value>, n: nat)
    requires Pushes(p, ip, next, below, st, temps, Error, n)
    ensures Pushes(p, ip, next', below, st, temps, Error, n)
  {
  }

  /** The condition has run, its test leads to `into`, and the code there pushes `r`. */
  lemma BranchTaken(p: Program, ip: nat, a: nat, into: nat, next: nat, below: seq<Value>, st: Store,
                    temps: seq<Value>, test: Result, n: nat, r: Result, k: nat)
    returns (total: nat)
    requires test.Ok? && Pushes(p, ip, a, below, st, temps, test, n)
    requires Run(p, Config(a, below, test.st, temps + [test.v]), 2) == Running(Config(into, below, test.st, temps))
    requires Pushes(p, into, next, below, test.st, temps, r, k)
    ensures Pushes(p, ip, next, below, st, temps, r, total)
  {
    hide Run, Config;
    var start := Config(ip, below, st, temps);
    Join(p, start, n, Config(a, below, test.st, temps + [test.v]), 2);
    Join(p, start, n + 2, Config(into, below, test.st, temps), k);
    total := n + 2 + k;
  }

  /** The first branch jumps over the second one. */
  lemma ThenJump(p: Program, ip: nat, b: nat, below: seq<Value>, st: Store, temps: seq<Value>, r: Result, n: nat, distance: Short)
    returns (total: nat)
    requires Pushes(p, ip, b, below, st, temps, r, n)
    requires At(p.code, b, Encode(Jump(distance))) && Room(below, temps, 1)
    ensures Pushes(p, ip, b + 3 + distance, below, st, temps, r, total)
  {
    hide Run, Config, At, Encode;
    total := n;
    if r.Ok? {
      JumpStep(p, b, below, r.st, temps + [r.v], distance);
      Join(p, Config(ip, below, st, temps), n, Config(b, below, r.st, temps + [r.v]), 1);
      total := n + 1;
    }
  }

  lemma PushFalseRuns(p: Program, ip: nat, below: seq<Value>, st: Store, temps: seq<Value>)
    requires At(p.code, ip, Encode(PushFalse)) && Room(below, temps, 1)
    ensures Pushes(p, ip, ip + |Encode(PushFalse)|, below, st, temps, Ok(Bool(false), st), 1)
  {
    Plain(p, ip, below, st, temps, PushFalse, st, temps + [Bool(false)]);
  }

  lemma {:induction false} IffTestRuns(p: Program, nested: bool, args: seq<Expr>, pool: seq<Value>, ip: nat,
                  below: seq<Value>, st: Store, temps: seq<Value>)
    returns (n: nat)
    requires |args| > 0
    requires Placed(p, ip, IffTest(args, pool, nested)) && Room(below, temps, Max(1, NeedAny(args)))
    ensures Pushes(p, ip, ip + |IffTest(args, pool, nested).bytes|, below, st, temps,
                   EvalIffTest(p.env, nested, args, st), n)
    decreases args, 0
  {
    hide Run, Config, Encode, At, Pooled, EvalExpr, CompileExpr, Pushes;
    NeedAnyAt(args, 0);
    if IsPredicateShape(args[0]) {
      n := ExprRuns(p, nested, args[0], pool, ip, below, st, temps);
    } else {
      PushFalseRuns(p, ip, below, st, temps);
      n := 1;
    }
  }

  lemma {:induction false} IffFirstRuns(p: Program, nested: bool, args: seq<Expr>, pool: seq<Value>, ip: nat,
                  below: seq<Value>, st: Store, temps: seq<Value>)
    returns (n: nat)
    requires Placed(p, ip, IffFirst(args, pool, nested)) && Room(below, temps, Max(1, NeedAny(args)))
    ensures Pushes(p, ip, ip + |IffFirst(args, pool, nested).bytes|, below, st, temps,
                   EvalIffFirst(p.env, nested, args, st), n)
    decreases args, 0
  {
    hide Run, Config, At, Pooled, EvalExpr, CompileExpr;
    if |args| >= 2 {
      NeedAnyAt(args, 1);
      n := ExprRuns(p, nested, args[1], pool, ip, below, st, temps);
    } else {
      PushConstant(p, ip, below, st, temps, pool, Int(1));
      n := 1;
    }
  }

  lemma {:induction false} IffSecondRuns(p: Program, nested: bool, args: seq<Expr>, pool: seq<Value>, ip: nat,
                  below: seq<Value>, st: Store, temps: seq<Value>)
    returns (n: nat)
    requires Placed(p, ip, IffSecond(args, pool, nested)) && Room(below, temps, Max(1, NeedAny(args)))
    ensures Pushes(p, ip, ip + |IffSecond(args, pool, nested).bytes|, below, st, temps,
                   EvalIffSecond(p.env, nested, args, st), n)
    decreases args, 0
  {
    hide Run, Config, At, Pooled, EvalExpr, CompileExpr;
    if |args| >= 3 {
      NeedAnyAt(args, 2);
      n := ExprRuns(p, nested, args[2], pool, ip, below, st, temps);
    } else {
      Plain(p, ip, below, st, temps, PushNull, st, temps + [Null]);
      n := 1;
    }
  }

  /** `=`: the value stays on the stack. */
  lemma {:induction false} AssignRuns(p: Program, nested: bool, e: Expr, pool: seq<Value>, ip: nat,
                  below: seq<Value>, st: Store, temps: seq<Value>)
    returns (n: nat)
    requires e.Assign?
    requires Placed(p, ip, CompileExpr(e, pool, nested)) && Room(below, temps, Need(e))
    ensures Pushes(p, ip, ip + |CompileExpr(e, pool, nested).bytes|, below, st, temps,
                   EvalExpr(p.env, nested, e, st), n)
    decreases e, 0
  {
    hide Run, Config, Encode, At, Pooled, LoadCode, StoreCode, LoadVariable, StoreVariable, BinaryResult, Apply, CompileExpr;
    AssignCode(e.name, e.right, pool, nested);
    var r := CompileExpr(e.right, pool, nested);
    var start := Config(ip, below, st, temps);
    PlacedParts(p, ip, r, StoreCode(e.name, r.pool, nested));
    n := ExprRuns(p, nested, e.right, pool, ip, below, st, temps);
    var right := EvalExpr(p.env, nested, e.right, st);
    if right.Ok? {
      StoreKeeps(p, ip + |r.bytes|, below, right.st, temps, right.v, r.pool, nested, e.name);
      Join(p, start, n, Config(ip + |r.bytes|, below, right.st, temps + [right.v]), 1);
      n := n + 1;
    }
  }

  lemma OpAssignGlue(p: Program, ip: nat, l: Code, r: Code, op: BinaryOp, name: string, nested: bool,
                     below: seq<Value>, st: Store, temps: seq<Value>, v: Value, st1: Store, right: Result, n: nat)
    returns (total: nat)
    requires Placed(p, ip, Then(Plus(Then(l, r), Binary(op)), StoreCode(name, r.pool, nested))) && Room(below, temps, 2)
    requires Pushes(p, ip, ip + |l.bytes|, below, st, temps, Ok(v, st1), 1)
    requires Pushes(p, ip + |l.bytes|, ip + |l.bytes| + |r.bytes|, below, st1, temps + [v], right, n)
    ensures Pushes(p, ip, ip + |Then(Plus(Then(l, r), Binary(op)), StoreCode(name, r.pool, nested)).bytes|,
                   below, st, temps, OpAssignResult(p.env.host, op, name, nested, v, right), total)
  {
    hide Run, Config, Encode, At, Pooled, BinaryResult, StoreCode, StoreVariable;
    PlacedParts(p, ip, Plus(Then(l, r), Binary(op)), StoreCode(name, r.pool, nested));
    PlacedPlus(p, ip, Then(l, r), Binary(op));
    SimpleLengths(op);
    var start := Config(ip, below, st, temps);
    var mid := ip + |l.bytes|;
    Join(p, start, 1, Config(mid, below, st1, temps + [v]), n);
    total := n + 1;
    if right.Ok? {
      var at := mid + |r.bytes|;
      assert temps + [v] + [right.v] == temps + [v, right.v];
      BinaryStep(p, at, below, right.st, temps, op, v, right.v);
      Join(p, start, total, Config(at, below, right.st, temps + [v, right.v]), 1);
      total := total + 1;
      var result := BinaryResult(p.env.host, op, v, right.v);
      if result.Some? {
        StoreKeeps(p, at + 1, below, right.st, temps, result.value, r.pool, nested, name);
        Join(p, start, total, Config(at + 1, below, right.st, temps + [result.value]), 1);
        total := total + 1;
      }
    }
  }

  function OpAssignResult(host: Host, op: BinaryOp, name: string, nested: bool, v: Value, right: Result): Result {
    if right.Error? then Error
    else
      match BinaryResult(host, op, v, right.v)
      case None => Error
      case Some(w) => Ok(w, StoreVariable(nested, name, w, right.st))
  }

  /** Compound assignment reads the variable before it evaluates the right side. */
  lemma {:induction false} OpAssignRuns(p: Program, nested: bool, e: Expr, pool: seq<Value>, ip: nat,
                  below: seq<Value>, st: Store, temps: seq<Value>)
    returns (n: nat)
    requires e.OpAssign?
    requires Placed(p, ip, CompileExpr(e, pool, nested)) && Room(below, temps, Need(e))
    ensures Pushes(p, ip, ip + |CompileExpr(e, pool, nested).bytes|, below, st, temps,
                   EvalExpr(p.env, nested, e, st), n)
    decreases e, 0
  {
    hide Run, Config, Encode, At, Placed, Pushes, LoadCode, StoreCode, LoadVariable, StoreVariable, BinaryResult, Plus, Then, BridgeCode, ShortCircuit, CallCode, Branch, CompileExpr;
    OpAssignCode(e.name, e.cop, e.right, pool, nested);
    var l := LoadCode(e.name, pool, nested);
    var r := CompileExpr(e.right, l.pool, nested);
    OpAssignParts(p, ip, l, r, e.cop, StoreCode(e.name, r.pool, nested));
    LoadPushes(p, ip, below, st, temps, pool, nested, e.name);
    var (v, st1) := LoadVariable(p.env, nested, e.name, st);
    n := ExprRuns(p, nested, e.right, l.pool, ip + |l.bytes|, below, st1, temps + [v]);
    n := OpAssignGlue(p, ip, l, r, e.cop, e.name, nested, below, st, temps, v, st1,
                      EvalExpr(p.env, nested, e.right, st1), n);
  }

  lemma OpAssignParts(p: Program, ip: nat, l: Code, r: Code, op: BinaryOp, store: Code)
    requires Placed(p, ip, Then(Plus(Then(l, r), Binary(op)), store)) && l.pool <= r.pool <= store.pool
    ensures Placed(p, ip, l) && Placed(p, ip + |l.bytes|, r)
  {
    hide Encode, At, Pooled;
    PlacedParts(p, ip, Plus(Then(l, r), Binary(op)), store);
    PlacedPlus(p, ip, Then(l, r), Binary(op));
    PlacedParts(p, ip, l, r);
  }

  /** `++` and `--`, prefix and postfix alike. */
  lemma {:induction false} BumpRuns(p: Program, nested: bool, e: Expr, pool: seq<Value>, ip: nat,
                  below: seq<Value>, st: Store, temps: seq<Value>)
    returns (n: nat)
    requires e.Bump?
    requires Placed(p, ip, CompileExpr(e, pool, nested)) && Room(below, temps, Need(e))
    ensures Pushes(p, ip, ip + |CompileExpr(e, pool, nested).bytes|, below, st, temps,
                   EvalExpr(p.env, nested, e, st), n)
    decreases e, 0
  {
    hide Run, Config, Encode, At, Pooled, LoadCode, StoreCode, LoadVariable, StoreVariable, BinaryResult, Apply;
    hide StepResult;
    var l := LoadCode(e.name, pool, nested);
    var i := if e.increment then Increment else Decrement;
    var start := Config(ip, below, st, temps);
    PlacedParts(p, ip, Plus(l, i), StoreCode(e.name, l.pool, nested));
    PlacedPlus(p, ip, l, i);
    assert |Encode(i)| == 1 by { SimpleLengths(Add); }
    LoadPushes(p, ip, below, st, temps, pool, nested, e.name);
    var (v, st1) := LoadVariable(p.env, nested, e.name, st);
    var at := ip + |l.bytes|;
    var w := StepResult(p.env.host, v, e.increment);
    UnaryApplies(p, st1, temps, i, v);
    UnaryStep(p, at, below, st1, temps, i, v, w);
    Join(p, start, 1, Config(at, below, st1, temps + [v]), 1);
    StoreKeeps(p, at + 1, below, st1, temps, w, l.pool, nested, e.name);
    Join(p, start, 2, Config(at + 1, below, st1, temps + [w]), 1);
    n := 3;
  }

  /** A call: the target, the arguments from the last to the first, the call itself. */
  lemma {:induction false} CallRuns(p: Program, nested: bool, e: Expr, pool: seq<Value>, ip: nat,
                  below: seq<Value>, st: Store, temps: seq<Value>)
    returns (n: nat)
    requires e.Call?
    requires Placed(p, ip, CompileExpr(e, pool, nested)) && Room(below, temps, Need(e))
    ensures Pushes(p, ip, ip + |CompileExpr(e, pool, nested).bytes|, below, st, temps,
                   EvalExpr(p.env, nested, e, st), n)
    decreases e, 0
  {
    hide Run, Config, Encode, At, Pooled, LoadCode, StoreCode, LoadVariable, StoreVariable, BinaryResult, Apply, CompileExpr;
    CallExprCode(e.name, e.args, pool, nested);
    hide CallCode, ReversedSeq;
    var l := LoadCode(e.name, pool, nested);
    var a := CompileArgs(e.args, l.pool, nested);
    var start := Config(ip, below, st, temps);
    PlacedParts(p, ip, Then(l, a), CallCode(e.name, |e.args|, a.pool));
    PlacedParts(p, ip, l, a);
    LoadPushes(p, ip, below, st, temps, pool, nested, e.name);
    var (target, st1) := LoadVariable(p.env, nested, e.name, st);
    var mid := ip + |l.bytes|;
    n := ArgsRun(p, nested, e.args, l.pool, mid, below, st1, temps + [target]);
    Join(p, start, 1, Config(mid, below, st1, temps + [target]), n);
    n := n + 1;
    var args := EvalArgs(p.env, nested, e.args, st1);
    if args.ArgsOk? {
      NeedArgsCount(e.args);
      var at := mid + |a.bytes|;
      var k := CallStep(p, at, below, args.st, temps, a.pool, e.name, target, args.vs);
      Join(p, start, n, Config(at, below, args.st, temps + [target] + ReversedSeq(args.vs)), k);
      n := n + k;
    }
  }

  lemma {:induction false} NeedArgsCount(args: seq<Expr>)
    ensures NeedArgs(args) >= |args|
  {
    if args != [] { NeedArgsCount(args[..|args| - 1]); }
  }

  lemma NoArgs(p: Program, ip: nat, below: seq<Value>, st: Store, temps: seq<Value>)
    ensures ArgsPushed(p, ip, ip, below, st, temps, ArgsOk([], st), 0)
  {
    assert temps + ReversedSeq([]) == temps;
  }

  /** After `n` steps the arguments lie on the stack in reverse, or the run failed. */
  ghost predicate ArgsPushed(p: Program, ip: nat, next: nat, below: seq<Value>, st: Store, temps: seq<Value>,
                             r: ArgsResult, n: nat)
  {
    Run(p, Config(ip, below, st, temps), n) ==
      match r
      case ArgsError => Failed
      case ArgsOk(vs, after) => Running(Config(next, below, after, temps + ReversedSeq(vs)))
  }

  lemma ArgsGlue(p: Program, ip: nat, c: Code, d: Code, below: seq<Value>, st: Store, temps: seq<Value>,
                 first: Result, n: nat, others: ArgsResult, k: nat)
    returns (total: nat)
    requires Pushes(p, ip, ip + |c.bytes|, below, st, temps, first, n)
    requires first.Ok? ==>
      ArgsPushed(p, ip + |c.bytes|, ip + |c.bytes| + |d.bytes|, below, first.st, temps + [first.v], others, k)
    ensures ArgsPushed(p, ip, ip + |Then(c, d).bytes|, below, st, temps,
                       if first.Error? || others.ArgsError? then ArgsError
                       else ArgsOk(others.vs + [first.v], others.st), total)
  {
    hide Run, Config, ReversedSeq;
    total := n;
    if first.Ok? {
      Join(p, Config(ip, below, st, temps), n, Config(ip + |c.bytes|, below, first.st, temps + [first.v]), k);
      total := n + k;
      if others.ArgsOk? {
        ReversedSnoc(others.vs, first.v);
        assert temps + [first.v] + ReversedSeq(others.vs) == temps + ReversedSeq(others.vs + [first.v]);
      }
    }
  }

  /** The arguments end up on the stack in reverse: the first one on top. */
  lemma {:induction false} ArgsRun(p: Program, nested: bool, args: seq<Expr>, pool: seq<Value>, ip: nat,
                                   below: seq<Value>, st: Store, temps: seq<Value>)
    returns (n: nat)
    requires Placed(p, ip, CompileArgs(args, pool, nested)) && Room(below, temps, NeedArgs(args))
    ensures ArgsPushed(p, ip, ip + |CompileArgs(args, pool, nested).bytes|, below, st, temps,
                       EvalArgs(p.env, nested, args, st), n)
    decreases args, 0
  {
    hide Run, Config, Encode, At, Placed, CompileArg, EvalArg, Pushes, Then, ReversedSeq, Need;
    if args == [] {
      NoArgs(p, ip, below, st, temps);
      n := 0;
    } else {
      var last, rest := args[|args| - 1], args[..|args| - 1];
      var c := CompileArg(last, pool, nested);
      var d := CompileArgs(rest, c.pool, nested);
      PlacedParts(p, ip, c, d);
      n := ArgRuns(p, nested, last, pool, ip, below, st, temps);
      var first := EvalArg(p.env, nested, last, st);
      var others, k := ArgsError, 0;
      if first.Ok? {
        others := EvalArgs(p.env, nested, rest, first.st);
        k := ArgsRun(p, nested, rest, c.pool, ip + |c.bytes|, below, first.st, temps + [first.v]);
      }
      n := ArgsGlue(p, ip, c, d, below, st, temps, first, n, others, k);
    }
  }

  lemma {:induction false} ArgRuns(p: Program, nested: bool, e: Expr, pool: seq<Value>, ip: nat,
                                   below: seq<Value>, st: Store, temps: seq<Value>)
    returns (n: nat)
    requires Placed(p, ip, CompileArg(e, pool, nested)) && Room(below, temps, Need(e))
    ensures Pushes(p, ip, ip + |CompileArg(e, pool, nested).bytes|, below, st, temps,
                   EvalArg(p.env, nested, e, st), n)
    decreases e, 3
  {
    hide Run, Config, Encode, At, Pooled, EvalExpr, CompileExpr, Need, EvalReference, ReferenceCode;
    if e.Variable? {
      ReferencePushes(p, ip, below, st, temps, pool, nested, e.name);
      n := 1;
    } else {
      n := ExprRuns(p, nested, e, pool, ip, below, st, temps);
    }
  }
}
