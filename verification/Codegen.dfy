/** The code each construct compiles to, as a function of the syntax tree and the
    constant pool: what the emitting and backpatching compiler is proved against. */
module Codegen {
  import opened Values
  import opened Instructions
  import opened Syntax

  const SHORT_MAX := 0xFFFF
  const LOOP_MAX := 0x7FFF

  /** Emitted bytes, the constant pool afterwards, and whether no compile error was
      reported. */
  datatype Code = Code(bytes: seq<Byte>, pool: seq<Value>, ok: bool)

  // ----- constants -----

  const EXPONENT_MASK: int := 0x7FF0_0000_0000_0000

  /** Equality of doubles on their bit patterns: not-a-number equals nothing and the
      two zeros are equal. */
  predicate DoubleBitsEqual(a: Bits64, b: Bits64) {
    a % TWO_63 <= EXPONENT_MASK && b % TWO_63 <= EXPONENT_MASK && (a == b || (a % TWO_63 == 0 && b % TWO_63 == 0))
  }

  /** The patterns of not-a-number have all exponent bits and some fraction bit. */
  predicate NotANumber(a: Bits64) {
    0x7FF0_0000_0000_0000 < a < 0x8000_0000_0000_0000 || 0xFFF0_0000_0000_0000 < a
  }

  /** Equal doubles are the same pattern or the two zeros; not-a-number is equal to nothing,
      itself included. */
  lemma DoubleEquality(a: Bits64, b: Bits64)
    ensures DoubleBitsEqual(a, b) <==>
            !NotANumber(a) && !NotANumber(b)
            && (a == b || (a in {0, 0x8000_0000_0000_0000} && b in {0, 0x8000_0000_0000_0000}))
  {
  }

  predicate ConstantsEqual(a: Value, b: Value) {
    if a.Double? && b.Double? then DoubleBitsEqual(a.bits, b.bits) else a == b
  }

  /** The index of the first pool entry equal to `v`, or the pool's length. */
  function FindConstant(pool: seq<Value>, v: Value): (k: nat)
    ensures k <= |pool|
    ensures k < |pool| ==> ConstantsEqual(pool[k], v)
    ensures forall j :: 0 <= j < k ==> !ConstantsEqual(pool[j], v)
  {
    if pool == [] then 0
    else if ConstantsEqual(pool[0], v) then 0
    else 1 + FindConstant(pool[1..], v)
  }

  function WithConstant(pool: seq<Value>, v: Value): (r: seq<Value>)
    ensures pool <= r
  {
    if FindConstant(pool, v) < |pool| then pool else pool + [v]
  }

  /** A pool that only ever received literals and names. */
  ghost predicate LiteralPool(pool: seq<Value>) {
    forall k :: 0 <= k < |pool| ==> IsLiteral(pool[k])
  }

  /** A literal is found again under its index, bit for bit: the pool's equality
      identifies no two different literals. */
  lemma ConstantKept(pool: seq<Value>, v: LiteralValue)
    requires LiteralPool(pool)
    ensures LiteralPool(WithConstant(pool, v))
    ensures FindConstant(pool, v) < |WithConstant(pool, v)|
    ensures WithConstant(pool, v)[FindConstant(pool, v)] == v
  {
    var k := FindConstant(pool, v);
    if k < |pool| && pool[k].Double? {
      assert IsLiteral(pool[k]);
    }
  }

  // ----- composing code -----

  function JumpOperand(distance: nat): Short { if distance <= SHORT_MAX then distance else SHORT_MAX }

  function LoopOperand(distance: nat): Short { if distance <= LOOP_MAX then distance else 0 }

  function Single(i: Instr, pool: seq<Value>): Code { Code(Encode(i), pool, true) }

  /** `b` was compiled with the pool `a` left. */
  function Then(a: Code, b: Code): Code { Code(a.bytes + b.bytes, b.pool, a.ok && b.ok) }

  function Plus(a: Code, i: Instr): Code { a.(bytes := a.bytes + Encode(i)) }

  /** emit_short(make_constant(...)) behind an opcode: an index past 16 bits is a
      compile error. */
  function ConstantOperand(pool: seq<Value>, v: Value): Short {
    if FindConstant(pool, v) <= SHORT_MAX then FindConstant(pool, v) else 0
  }

  function ConstantFits(pool: seq<Value>, v: Value): bool { FindConstant(pool, v) <= SHORT_MAX }

  function PushConstantCode(pool: seq<Value>, v: Value): (c: Code)
    ensures pool <= c.pool
  {
    Code(Encode(PushConst(ConstantOperand(pool, v))), WithConstant(pool, v), ConstantFits(pool, v))
  }

  // ----- variables -----

  /** resolve_local: a nested function owns `$0` to `$9` and `@_`, the main program
      owns no name. */
  function SlotOf(name: string, nested: bool): Option<Byte> {
    if !nested then None
    else if name == "@_" then Some(11)
    else if |name| == 2 && name[0] == '$' && '0' <= name[1] <= '9' then Some((name[1] - '0') as int + 1)
    else None
  }

  /** named_variable takes the index modulo 2^16 without reporting an error. */
  function NameOperand(pool: seq<Value>, name: string): Short { FindConstant(pool, Text(name)) % 0x1_0000 }

  /** Reading a variable through its operand finds the variable's name exactly when the
      pool had at most 2^16 entries in front of it: named_variable does not check. */
  lemma NameOperandExact(pool: seq<Value>, name: string)
    requires LiteralPool(pool)
    ensures WithConstant(pool, Text(name))[NameOperand(pool, name)] == Text(name)
            <==> FindConstant(pool, Text(name)) < 0x1_0000
  {
    var k := FindConstant(pool, Text(name));
    ConstantKept(pool, Text(name));
    if k > SHORT_MAX {
      assert NameOperand(pool, name) < k;
      assert !ConstantsEqual(pool[NameOperand(pool, name)], Text(name));
    }
  }

  /** The pool of a function that uses every integer below 2^16 as a literal. */
  function FullPool(): (pool: seq<Value>)
    ensures |pool| == 0x1_0000 && forall k | 0 <= k < |pool| :: pool[k] == Int(k)
  {
    seq(0x1_0000, k requires 0 <= k < 0x1_0000 => Int(k))
  }

  /** The next new variable of that function is read and written through constant 0, which
      is the literal 0 and not its name. */
  lemma NameLost(name: string)
    ensures LiteralPool(FullPool()) && FindConstant(FullPool(), Text(name)) == 0x1_0000
    ensures NameOperand(FullPool(), name) == 0 && WithConstant(FullPool(), Text(name))[0] == Int(0)
  {
  }

  function LoadCode(name: string, pool: seq<Value>, nested: bool): (c: Code)
    ensures pool <= c.pool
  {
    match SlotOf(name, nested)
    case Some(slot) => Single(LoadLocal(slot), pool)
    case None => Code(Encode(LoadGlobal(NameOperand(pool, name))), WithConstant(pool, Text(name)), true)
  }

  function StoreCode(name: string, pool: seq<Value>, nested: bool): (c: Code)
    ensures pool <= c.pool
  {
    match SlotOf(name, nested)
    case Some(slot) => Single(StoreLocal(slot), pool)
    case None => Code(Encode(StoreGlobal(NameOperand(pool, name))), WithConstant(pool, Text(name)), true)
  }

  function ReferenceCode(name: string, pool: seq<Value>, nested: bool): (c: Code)
    ensures pool <= c.pool
  {
    match SlotOf(name, nested)
    case Some(slot) => Single(ReferenceLocal(slot), pool)
    case None =>
      Code(Encode(ReferenceGlobal(ConstantOperand(pool, Text(name)))),
           WithConstant(pool, Text(name)), ConstantFits(pool, Text(name)))
  }

  /** OP_STORE_GLOBAL with a checked constant, as foreach emits it. */
  function CheckedStoreCode(name: string, pool: seq<Value>): (c: Code)
    ensures pool <= c.pool
  {
    Code(Encode(StoreGlobal(ConstantOperand(pool, Text(name)))),
         WithConstant(pool, Text(name)), ConstantFits(pool, Text(name)))
  }

  // ----- branches and loops -----

  /** `left` decides whether `right` is skipped; `skip` builds the jump. */
  function ShortCircuit(left: Code, isAnd: bool, right: Code): Code {
    var operand := JumpOperand(|right.bytes|);
    Code(left.bytes + Encode(if isAnd then AndJump(operand) else OrJump(operand)) + right.bytes,
         right.pool, left.ok && right.ok && |right.bytes| <= SHORT_MAX)
  }

  /** condition, JUMP_IF_FALSE, POP, first, JUMP, POP, second. */
  function Branch(cond: Code, first: Code, second: Code): Code {
    var overFirst, overSecond := |first.bytes| + 4, |second.bytes| + 1;
    Code(cond.bytes + Encode(JumpIfFalse(JumpOperand(overFirst))) + Encode(Pop)
         + first.bytes + Encode(Jump(JumpOperand(overSecond))) + Encode(Pop) + second.bytes,
         second.pool,
         cond.ok && first.ok && second.ok && overFirst <= SHORT_MAX && overSecond <= SHORT_MAX)
  }

  /** condition, JUMP_IF_FALSE, POP, body, LOOP, POP. */
  function LoopBlock(cond: Code, body: Code): Code {
    var forward := |body.bytes| + 4;
    var back := |cond.bytes| + |body.bytes| + 7;
    Code(cond.bytes + Encode(JumpIfFalse(JumpOperand(forward))) + Encode(Pop)
         + body.bytes + Encode(Loop(LoopOperand(back))) + Encode(Pop),
         body.pool, cond.ok && body.ok && forward <= SHORT_MAX && back <= LOOP_MAX)
  }

  /** body, LOOP: a for statement without a condition. */
  function EndlessBlock(body: Code): Code {
    var back := |body.bytes| + 3;
    Code(body.bytes + Encode(Loop(LoopOperand(back))), body.pool, body.ok && back <= LOOP_MAX)
  }

  /** FOREACH_NEXT, body, LOOP, POP, POP. */
  function ForeachBlock(valueOnly: bool, body: Code): Code {
    var forward, back := |body.bytes| + 3, |body.bytes| + 6;
    var operand := JumpOperand(forward);
    Code(Encode(if valueOnly then ForeachNextValue(operand) else ForeachNext(operand))
         + body.bytes + Encode(Loop(LoopOperand(back))) + Encode(Pop) + Encode(Pop),
         body.pool, body.ok && forward <= SHORT_MAX && back <= LOOP_MAX)
  }

  // ----- expressions -----

  function CompileExpr(e: Expr, pool: seq<Value>, nested: bool): (c: Code)
    ensures pool <= c.pool
    decreases e, 1
  {
    match e
    case Literal(v) => PushConstantCode(pool, v)
    case NullLiteral => Single(PushNull, pool)
    case BoolLiteral(b) => Single(if b then PushTrue else PushFalse, pool)
    case Variable(name) => LoadCode(name, pool, nested)
    case Binop(op, left, right) =>
      var r := CompileExpr(right, pool, nested);
      var l := CompileExpr(left, r.pool, nested);
      Plus(Plus(Then(r, l), Swap), Binary(op))
    case Bridge(name, negate, left, right) =>
      var l := CompileExpr(left, pool, nested);
      var r := CompileExpr(right, l.pool, nested);
      Then(Then(l, r), BridgeCode(name, negate, r.pool))
    case And(left, right) =>
      var l := CompileExpr(left, pool, nested);
      ShortCircuit(l, true, CompileExpr(right, l.pool, nested))
    case Or(left, right) =>
      var l := CompileExpr(left, pool, nested);
      ShortCircuit(l, false, CompileExpr(right, l.pool, nested))
    case Not(operand) => Plus(CompileExpr(operand, pool, nested), Instr.Not)
    case Minus(operand) => Plus(CompileExpr(operand, pool, nested), Negate)
    case Iff(args) =>
      if |args| == 0 then Single(PushNull, pool)
      else
        var test := IffTest(args, pool, nested);
        var first := IffFirst(args, test.pool, nested);
        Branch(test, first, IffSecond(args, first.pool, nested))
    case Assign(name, right) =>
      var r := CompileExpr(right, pool, nested);
      Then(r, StoreCode(name, r.pool, nested))
    case OpAssign(name, op, right) =>
      var l := LoadCode(name, pool, nested);
      var r := CompileExpr(right, l.pool, nested);
      Then(Plus(Then(l, r), Binary(op)), StoreCode(name, r.pool, nested))
    case Bump(name, increment) =>
      var l := LoadCode(name, pool, nested);
      Then(Plus(l, if increment then Increment else Decrement), StoreCode(name, l.pool, nested))
    case Call(name, args) =>
      var target := LoadCode(name, pool, nested);
      var a := CompileArgs(args, target.pool, nested);
      Then(Then(target, a), CallCode(name, |args|, a.pool))
  }

  function IffTest(args: seq<Expr>, pool: seq<Value>, nested: bool): (c: Code)
    requires |args| > 0
    ensures pool <= c.pool
    decreases args, 0
  {
    if IsPredicateShape(args[0]) then CompileExpr(args[0], pool, nested) else Single(PushFalse, pool)
  }

  function IffFirst(args: seq<Expr>, pool: seq<Value>, nested: bool): (c: Code)
    ensures pool <= c.pool
    decreases args, 0
  {
    if |args| >= 2 then CompileExpr(args[1], pool, nested) else PushConstantCode(pool, Int(1))
  }

  function IffSecond(args: seq<Expr>, pool: seq<Value>, nested: bool): (c: Code)
    ensures pool <= c.pool
    decreases args, 0
  {
    if |args| >= 3 then CompileExpr(args[2], pool, nested) else Single(PushNull, pool)
  }

  /** Arguments are compiled from the last to the first; a bare variable is passed by
      reference. */
  function CompileArgs(args: seq<Expr>, pool: seq<Value>, nested: bool): (c: Code)
    ensures pool <= c.pool
    decreases args, 0
  {
    if args == [] then Code([], pool, true)
    else
      var last := CompileArg(args[|args| - 1], pool, nested);
      Then(last, CompileArgs(args[..|args| - 1], last.pool, nested))
  }

  function CompileArg(e: Expr, pool: seq<Value>, nested: bool): (c: Code)
    ensures pool <= c.pool
    decreases e, 2
  {
    if e.Variable? then ReferenceCode(e.name, pool, nested) else CompileExpr(e, pool, nested)
  }

  function BridgeCode(name: string, negate: bool, pool: seq<Value>): (c: Code)
    ensures pool <= c.pool
  {
    var operand := ConstantOperand(pool, Text(name));
    Code(Encode(if negate then NegatedBinaryPredicate(operand) else BinaryPredicate(operand)),
         WithConstant(pool, Text(name)), ConstantFits(pool, Text(name)))
  }

  /** REVERSE when there are two arguments or more, then CALL_NAMED; a count past one
      byte is a compile error. */
  function CallCode(name: string, count: nat, pool: seq<Value>): (c: Code)
    ensures pool <= c.pool
  {
    var reverse := if count > 1 then Encode(Reverse(count % 256)) else [];
    Code(reverse + Encode(CallNamed(count % 256, ConstantOperand(pool, Text(name)))),
         WithConstant(pool, Text(name)), count <= 255 && ConstantFits(pool, Text(name)))
  }

  // ----- statements -----

  /** Each expression followed by POP: for-loop initialisers and increments. */
  function CompileEach(es: seq<Expr>, pool: seq<Value>, nested: bool): (c: Code)
    ensures pool <= c.pool
  {
    if es == [] then Code([], pool, true)
    else
      var first := Plus(CompileExpr(es[0], pool, nested), Pop);
      Then(first, CompileEach(es[1..], first.pool, nested))
  }

  // foreach: the value's variable, then the key's, or POP when the key is not used.
  function KeyCode(index: Option<string>, pool: seq<Value>): (c: Code)
    ensures pool <= c.pool
  {
    match index
    case None => Single(Pop, pool)
    case Some(name) => Plus(CheckedStoreCode(name, pool), Pop)
  }

  function BindCode(index: Option<string>, value: string, pool: seq<Value>): (c: Code)
    ensures pool <= c.pool
  {
    var v := Plus(CheckedStoreCode(value, pool), Pop);
    Then(v, KeyCode(index, v.pool))
  }

  function ForeachBody(index: Option<string>, value: string, body: seq<Stmt>, pool: seq<Value>, nested: bool): (c: Code)
    ensures pool <= c.pool
    decreases body, 1
  {
    var b := BindCode(index, value, pool);
    Then(b, CompileBlock(body, b.pool, nested))
  }

  /** A loop body followed by its increments. */
  function PassCode(body: seq<Stmt>, increment: seq<Expr>, pool: seq<Value>, nested: bool): (c: Code)
    ensures pool <= c.pool
    decreases body, 1
  {
    var b := CompileBlock(body, pool, nested);
    Then(b, CompileEach(increment, b.pool, nested))
  }

  function CompileBlock(body: seq<Stmt>, pool: seq<Value>, nested: bool): (c: Code)
    ensures pool <= c.pool
    decreases body, 0
  {
    if body == [] then Code([], pool, true)
    else
      var first := CompileStmt(body[0], pool, nested);
      Then(first, CompileBlock(body[1..], first.pool, nested))
  }

  function CompileStmt(s: Stmt, pool: seq<Value>, nested: bool): (c: Code)
    ensures pool <= c.pool
    decreases s, 2
  {
    match s
    case ExprStmt(e) => Plus(CompileExpr(e, pool, nested), Pop)
    case Empty => Single(Nop, pool)
    case If(cond, thenBody, elseBody) =>
      var test := CompileExpr(cond, pool, nested);
      var first := CompileBlock(thenBody, test.pool, nested);
      Branch(test, first, CompileBlock(elseBody, first.pool, nested))
    case While(cond, body) =>
      var test := CompileExpr(cond, pool, nested);
      LoopBlock(test, CompileBlock(body, test.pool, nested))
    case For(init, cond, increment, body) =>
      var i := CompileEach(init, pool, nested);
      var test := CompileExpr(cond, i.pool, nested);
      Then(i, LoopBlock(test, PassCode(body, increment, test.pool, nested)))
    case Forever(init, increment, body) =>
      var i := CompileEach(init, pool, nested);
      Then(i, EndlessBlock(PassCode(body, increment, i.pool, nested)))
    case Foreach(index, value, generator, body) =>
      var g := CompileExpr(generator, pool, nested);
      var start := Then(g, PushConstantCode(g.pool, Int(0)));
      Then(start, ForeachBlock(index.None?, ForeachBody(index, value, body, start.pool, nested)))
  }

  /** A whole function body: its statements, then emit_return. */
  function CompileBody(body: seq<Stmt>, nested: bool): Code {
    Plus(Plus(CompileBlock(body, [], nested), PushNull), Return)
  }
}
