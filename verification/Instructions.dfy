/** The byte encoding of the opcodes the compiler emits for expressions, branches
    and loops, and their decoding by the interpreter. */
module Instructions {
  import opened Values

  type Byte = b: int | 0 <= b < 256

  /** A 16-bit operand. */
  type Short = s: int | 0 <= s < 0x1_0000

  datatype Instr =
    | PushNull
    | PushTrue
    | PushFalse
    | PushConst(index: Short)
    | LoadLocal(slot: Byte)
    | StoreLocal(slot: Byte)
    | LoadGlobal(index: Short)
    | StoreGlobal(index: Short)
    | ReferenceLocal(slot: Byte)
    | ReferenceGlobal(index: Short)
    | Binary(op: BinaryOp)
    | Negate
    | Not
    | AndJump(offset: Short)
    | OrJump(offset: Short)
    | Increment
    | Decrement
    | BinaryPredicate(index: Short)
    | NegatedBinaryPredicate(index: Short)
    | Pop
    | Swap
    | Reverse(count: Byte)
    | Jump(offset: Short)
    | JumpIfFalse(offset: Short)
    | Loop(offset: Short)
    | CallNamed(count: Byte, index: Short)
    | ForeachNext(offset: Short)
    | ForeachNextValue(offset: Short)
    | Return
    | Nop

  function High(s: Short): Byte { s / 256 }
  function Low(s: Short): Byte { s % 256 }

  function BinaryOpcode(op: BinaryOp): Byte {
    match op
    case Add => 30
    case Subtract => 31
    case Multiply => 32
    case Divide => 33
    case Modulo => 34
    case Power => 35
    case Concat => 37
    case Repeat => 39
    case Equal => 40
    case NotEqual => 41
    case Less => 42
    case Greater => 43
    case LessEqual => 44
    case GreaterEqual => 45
    case Spaceship => 46
    case BitAnd => 52
    case BitOr => 53
    case BitXor => 54
    case ShiftLeft => 56
    case ShiftRight => 57
  }

  const OP_PUSH_NULL: Byte := 0
  const OP_PUSH_TRUE: Byte := 1
  const OP_PUSH_FALSE: Byte := 2
  const OP_PUSH_CONST: Byte := 3
  const OP_LOAD_LOCAL_0: Byte := 4
  const OP_STORE_LOCAL_0: Byte := 12
  const OP_LOAD_LOCAL: Byte := 20
  const OP_STORE_LOCAL: Byte := 21
  const OP_LOAD_GLOBAL: Byte := 22
  const OP_STORE_GLOBAL: Byte := 23
  const OP_REFERENCE_LOCAL: Byte := 27
  const OP_REFERENCE_GLOBAL: Byte := 28
  const OP_NEGATE: Byte := 36
  const OP_NOT: Byte := 49
  const OP_AND: Byte := 50
  const OP_OR: Byte := 51
  const OP_INCREMENT: Byte := 58
  const OP_DECREMENT: Byte := 59
  const OP_BINARY_PREDICATE: Byte := 61
  const OP_NEGATED_BINARY_PREDICATE: Byte := 62
  const OP_POP: Byte := 63
  const OP_SWAP: Byte := 66
  const OP_REVERSE: Byte := 67
  const OP_JUMP: Byte := 68
  const OP_JUMP_IF_FALSE: Byte := 69
  const OP_LOOP: Byte := 72
  const OP_CALL_NAMED: Byte := 74
  const OP_RETURN: Byte := 75
  const OP_FOREACH_NEXT: Byte := 79
  const OP_FOREACH_NEXT_VALUE: Byte := 80
  const OP_NOP: Byte := 109

  function WithShort(opcode: Byte, operand: Short): (code: seq<Byte>)
    ensures |code| == 3
  {
    [opcode, High(operand), Low(operand)]
  }

  /** The bytes the compiler emits for one instruction. Slots 0 to 7 have opcodes of
      their own; the other slots take an operand byte. */
  function Encode(i: Instr): (code: seq<Byte>)
    ensures 1 <= |code| <= 4
  {
    match i
    case PushNull => [OP_PUSH_NULL]
    case PushTrue => [OP_PUSH_TRUE]
    case PushFalse => [OP_PUSH_FALSE]
    case PushConst(index) => WithShort(OP_PUSH_CONST, index)
    case LoadLocal(slot) => if slot < 8 then [OP_LOAD_LOCAL_0 + slot] else [OP_LOAD_LOCAL, slot]
    case StoreLocal(slot) => if slot < 8 then [OP_STORE_LOCAL_0 + slot] else [OP_STORE_LOCAL, slot]
    case LoadGlobal(index) => WithShort(OP_LOAD_GLOBAL, index)
    case StoreGlobal(index) => WithShort(OP_STORE_GLOBAL, index)
    case ReferenceLocal(slot) => [OP_REFERENCE_LOCAL, slot]
    case ReferenceGlobal(index) => WithShort(OP_REFERENCE_GLOBAL, index)
    case Binary(op) => [BinaryOpcode(op)]
    case Negate => [OP_NEGATE]
    case Not => [OP_NOT]
    case AndJump(offset) => WithShort(OP_AND, offset)
    case OrJump(offset) => WithShort(OP_OR, offset)
    case Increment => [OP_INCREMENT]
    case Decrement => [OP_DECREMENT]
    case BinaryPredicate(index) => WithShort(OP_BINARY_PREDICATE, index)
    case NegatedBinaryPredicate(index) => WithShort(OP_NEGATED_BINARY_PREDICATE, index)
    case Pop => [OP_POP]
    case Swap => [OP_SWAP]
    case Reverse(count) => [OP_REVERSE, count]
    case Jump(offset) => WithShort(OP_JUMP, offset)
    case JumpIfFalse(offset) => WithShort(OP_JUMP_IF_FALSE, offset)
    case Loop(offset) => WithShort(OP_LOOP, offset)
    case CallNamed(count, index) => [OP_CALL_NAMED, count, High(index), Low(index)]
    case ForeachNext(offset) => WithShort(OP_FOREACH_NEXT, offset)
    case ForeachNextValue(offset) => WithShort(OP_FOREACH_NEXT_VALUE, offset)
    case Return => [OP_RETURN]
    case Nop => [OP_NOP]
  }

  function Length(i: Instr): nat { |Encode(i)| }

  function OpcodeBinary(b: Byte): Option<BinaryOp> {
    match b
    case 30 => Some(Add)
    case 31 => Some(Subtract)
    case 32 => Some(Multiply)
    case 33 => Some(Divide)
    case 34 => Some(Modulo)
    case 35 => Some(Power)
    case 37 => Some(Concat)
    case 39 => Some(Repeat)
    case 40 => Some(Equal)
    case 41 => Some(NotEqual)
    case 42 => Some(Less)
    case 43 => Some(Greater)
    case 44 => Some(LessEqual)
    case 45 => Some(GreaterEqual)
    case 46 => Some(Spaceship)
    case 52 => Some(BitAnd)
    case 53 => Some(BitOr)
    case 54 => Some(BitXor)
    case 56 => Some(ShiftLeft)
    case 57 => Some(ShiftRight)
    case _ => None
  }

  /** read_short: big-endian. */
  function ShortAt(code: seq<Byte>, p: nat): Short
    requires p + 2 <= |code|
  {
    code[p] as int * 256 + code[p + 1]
  }

  function DecodeShort(code: seq<Byte>, p: nat): Option<Instr>
    requires p + 3 <= |code|
  {
    var operand := ShortAt(code, p + 1);
    match code[p]
    case 3 => Some(PushConst(operand))
    case 22 => Some(LoadGlobal(operand))
    case 23 => Some(StoreGlobal(operand))
    case 28 => Some(ReferenceGlobal(operand))
    case 50 => Some(AndJump(operand))
    case 51 => Some(OrJump(operand))
    case 61 => Some(BinaryPredicate(operand))
    case 62 => Some(NegatedBinaryPredicate(operand))
    case 68 => Some(Jump(operand))
    case 69 => Some(JumpIfFalse(operand))
    case 72 => Some(Loop(operand))
    case 79 => Some(ForeachNext(operand))
    case 80 => Some(ForeachNextValue(operand))
    case _ => None
  }

  function DecodeByteOperand(code: seq<Byte>, p: nat): Option<Instr>
    requires p + 2 <= |code|
  {
    match code[p]
    case 20 => Some(LoadLocal(code[p + 1]))
    case 21 => Some(StoreLocal(code[p + 1]))
    case 27 => Some(ReferenceLocal(code[p + 1]))
    case 67 => Some(Reverse(code[p + 1]))
    case _ => None
  }

  function DecodeSimple(b: Byte): Option<Instr> {
    if 4 <= b < 12 then Some(LoadLocal(b - 4))
    else if 12 <= b < 20 then Some(StoreLocal(b - 12))
    else match b
      case 0 => Some(PushNull)
      case 1 => Some(PushTrue)
      case 2 => Some(PushFalse)
      case 36 => Some(Negate)
      case 49 => Some(Not)
      case 58 => Some(Increment)
      case 59 => Some(Decrement)
      case 63 => Some(Pop)
      case 66 => Some(Swap)
      case 75 => Some(Return)
      case 109 => Some(Nop)
      case _ =>
        match OpcodeBinary(b)
        case None => None
        case Some(op) => Some(Binary(op))
  }

  /** The instruction at offset `p`; None for an opcode outside the modelled set or
      a code array that ends inside the instruction. */
  function Decode(code: seq<Byte>, p: nat): Option<Instr> {
    if p >= |code| then None
    else if DecodeSimple(code[p]).Some? then DecodeSimple(code[p])
    else if p + 2 > |code| then None
    else if DecodeByteOperand(code, p).Some? then DecodeByteOperand(code, p)
    else if p + 3 > |code| then None
    else if DecodeShort(code, p).Some? then DecodeShort(code, p)
    else if p + 4 > |code| || code[p] != OP_CALL_NAMED then None
    else Some(CallNamed(code[p + 1], ShortAt(code, p + 2)))
  }

  /** `part` occupies `code` from offset `p` on. */
  ghost predicate At(code: seq<Byte>, p: nat, part: seq<Byte>) {
    p + |part| <= |code| && code[p..p + |part|] == part
  }

  lemma AtSplit(code: seq<Byte>, p: nat, a: seq<Byte>, b: seq<Byte>)
    requires At(code, p, a + b)
    ensures At(code, p, a) && At(code, p + |a|, b)
  {
    assert code[p..p + |a|] == code[p..p + |a + b|][..|a|];
    assert code[p + |a|..p + |a| + |b|] == code[p..p + |a + b|][|a|..];
  }

  lemma AtByte(code: seq<Byte>, p: nat, part: seq<Byte>, k: nat)
    requires At(code, p, part) && k < |part|
    ensures code[p + k] == part[k]
  {
    assert code[p..p + |part|][k] == part[k];
  }

  /** The parts of a longer stretch of code, each at its own offset. */
  lemma AtFour(code: seq<Byte>, p: nat, a: seq<Byte>, b: seq<Byte>, c: seq<Byte>, d: seq<Byte>)
    requires At(code, p, a + b + c + d)
    ensures At(code, p, a) && At(code, p + |a|, b)
    ensures At(code, p + |a| + |b|, c) && At(code, p + |a| + |b| + |c|, d)
  {
    AtSplit(code, p, a + b + c, d);
    AtSplit(code, p, a + b, c);
    AtSplit(code, p, a, b);
  }

  lemma DecodeEncodeShort(code: seq<Byte>, p: nat, i: Instr)
    requires At(code, p, Encode(i)) && |Encode(i)| == 3
    ensures Decode(code, p) == Some(i)
  {
    AtByte(code, p, Encode(i), 0);
    AtByte(code, p, Encode(i), 1);
    AtByte(code, p, Encode(i), 2);
    assert DecodeSimple(code[p]) == None;
    assert DecodeByteOperand(code, p) == None;
  }

  /** Decoding is the inverse of encoding, wherever the bytes stand. */
  lemma DecodeEncode(code: seq<Byte>, p: nat, i: Instr)
    requires At(code, p, Encode(i))
    ensures Decode(code, p) == Some(i)
  {
    AtByte(code, p, Encode(i), 0);
    if |Encode(i)| == 1 {
      assert DecodeSimple(code[p]) == Some(i);
    } else if |Encode(i)| == 2 {
      AtByte(code, p, Encode(i), 1);
      assert DecodeSimple(code[p]) == None;
    } else if |Encode(i)| == 3 {
      DecodeEncodeShort(code, p, i);
    } else {
      AtByte(code, p, Encode(i), 1);
      AtByte(code, p, Encode(i), 2);
      AtByte(code, p, Encode(i), 3);
    }
  }
}
