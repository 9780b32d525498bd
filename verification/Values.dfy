/** Sleep scalar values and the arithmetic of the binary opcodes.

    The int and long kinds wrap explicitly at 32 and 64 bits. Doubles are kept as
    their 64-bit patterns; every operation that needs floating point, number
    parsing or number formatting is a field of `Host`, so each theorem about the
    compiler and the machine holds for every choice of those operations. */
module Values {

  const TWO_31: int := 0x8000_0000
  const TWO_32: int := 0x1_0000_0000
  const TWO_63: int := 0x8000_0000_0000_0000
  const TWO_64: int := 0x1_0000_0000_0000_0000

  type Int32 = i: int | -0x8000_0000 <= i < 0x8000_0000
  type Int64 = i: int | -0x8000_0000_0000_0000 <= i < 0x8000_0000_0000_0000
  type Bits64 = i: int | 0 <= i < 0x1_0000_0000_0000_0000

  datatype Option<+T> = None | Some(value: T)

  datatype Value =
    | Null
    | Bool(b: bool)
    | Int(i: Int32)
    | Long(l: Int64)
    | Double(bits: Bits64)
    | Text(chars: string)
    | Object(id: nat)

  /** Operators that compile to one opcode with two operands on the stack. */
  datatype BinaryOp =
    | Add | Subtract | Multiply | Divide | Modulo | Power
    | Concat | Repeat
    | Equal | NotEqual | Less | Greater | LessEqual | GreaterEqual | Spaceship
    | BitAnd | BitOr | BitXor | ShiftLeft | ShiftRight

  /** The floating-point and text operations the model does not look into. */
  datatype Host = Host(
    asDouble: Value -> Bits64,
    doubleArith: (BinaryOp, Bits64, Bits64) -> Bits64,
    doubleNegate: Bits64 -> Bits64,
    doubleLess: (Bits64, Bits64) -> bool,
    doubleLessEqual: (Bits64, Bits64) -> bool,
    doubleEqual: (Bits64, Bits64) -> bool,
    doubleToInt: Bits64 -> Int32,
    doubleToLong: Bits64 -> Int64,
    text: Value -> string)

  datatype Kind = IntKind | LongKind | DoubleKind

  function Wrap32(x: int): (r: Int32)
    ensures (r - x) % TWO_32 == 0
  {
    (x + TWO_31) % TWO_32 - TWO_31
  }

  function Wrap64(x: int): (r: Int64)
    ensures (r - x) % TWO_64 == 0
  {
    (x + TWO_63) % TWO_64 - TWO_63
  }

  /** C division: the quotient is truncated toward zero. */
  function TruncatedQuotient(a: int, b: int): int
    requires b != 0
  {
    var q := Magnitude(a) / Magnitude(b);
    if (a < 0) == (b < 0) then q else -q
  }

  function TruncatedRemainder(a: int, b: int): int
    requires b != 0
  {
    a - b * TruncatedQuotient(a, b)
  }

  function Magnitude(a: int): nat { if a < 0 then -a else a }

  function Pow2(n: nat): (p: nat)
    ensures p > 0
  {
    if n == 0 then 1 else 2 * Pow2(n - 1)
  }

  /** The bitwise operators on `width`-bit unsigned words. */
  function Bitwise(op: BinaryOp, a: nat, b: nat, width: nat): (r: nat)
    ensures r < Pow2(width)
  {
    if width == 0 then 0
    else
      var x, y := a % 2, b % 2;
      var bit := match op
        case BitAnd => if x == 1 && y == 1 then 1 else 0
        case BitOr => if x == 1 || y == 1 then 1 else 0
        case _ => if x != y then 1 else 0;
      bit + 2 * Bitwise(op, a / 2, b / 2, width - 1)
  }

  function KindOf(v: Value): Kind {
    match v
    case Double(_) => DoubleKind
    case Long(_) => LongKind
    case _ => IntKind
  }

  function WidestKind(a: Value, b: Value): Kind {
    if KindOf(a).DoubleKind? || KindOf(b).DoubleKind? then DoubleKind
    else if KindOf(a).LongKind? || KindOf(b).LongKind? then LongKind
    else IntKind
  }

  function ToInt(host: Host, v: Value): Int32 {
    match v
    case Null => 0
    case Bool(b) => if b then 1 else 0
    case Int(i) => i
    case Object(_) => 0
    case _ => (host.doubleToInt)((host.asDouble)(v))
  }

  function ToLong(host: Host, v: Value): Int64 {
    match v
    case Long(l) => l
    case Null => 0
    case Bool(b) => if b then 1 else 0
    case Int(i) => i
    case Object(_) => 0
    case _ => (host.doubleToLong)((host.asDouble)(v))
  }

  predicate IsNumeric(v: Value) { v.Int? || v.Long? || v.Double? }

  /** Values whose double is exact and comes from a small integer. */
  predicate IsSmall(v: Value) { v.Null? || v.Bool? || v.Int? }

  predicate IsFalsy(v: Value) {
    match v
    case Null => true
    case Bool(b) => !b
    case Int(i) => i == 0
    case Long(l) => l == 0
    case Double(bits) => bits == 0 || bits == TWO_63
    case _ => false
  }

  predicate ValuesEqual(host: Host, a: Value, b: Value) {
    if IsNumeric(a) && IsNumeric(b) then
      if a.Int? && b.Int? then a.i == b.i
      else (host.doubleEqual)((host.asDouble)(a), (host.asDouble)(b))
    else
      a == b
  }

  predicate ValueLess(host: Host, a: Value, b: Value) {
    if IsSmall(a) && IsSmall(b) then ToInt(host, a) < ToInt(host, b)
    else (host.doubleLess)((host.asDouble)(a), (host.asDouble)(b))
  }

  predicate ValueLessEqual(host: Host, a: Value, b: Value) {
    if IsSmall(a) && IsSmall(b) then ToInt(host, a) <= ToInt(host, b)
    else (host.doubleLessEqual)((host.asDouble)(a), (host.asDouble)(b))
  }

  function TextOf(host: Host, v: Value): string {
    if v.Text? then v.chars else (host.text)(v)
  }

  function RepeatText(s: string, count: nat): string {
    if count == 0 then [] else s + RepeatText(s, count - 1)
  }

  /** The exact integer result of an arithmetic operator, before wrapping; None is
      a division or remainder by zero. */
  function ExactResult(op: BinaryOp, a: int, b: int): Option<int> {
    match op
    case Add => Some(a + b)
    case Subtract => Some(a - b)
    case Multiply => Some(a * b)
    case Divide => if b == 0 then None else Some(TruncatedQuotient(a, b))
    case _ => if b == 0 then None else Some(TruncatedRemainder(a, b))
  }

  function ArithmeticResult(host: Host, op: BinaryOp, a: Value, b: Value): Option<Value> {
    match WidestKind(a, b)
    case DoubleKind =>
      var divisor := (host.asDouble)(b);
      if op == Modulo && (divisor == 0 || divisor == TWO_63) then None
      else Some(Double((host.doubleArith)(op, (host.asDouble)(a), divisor)))
    case LongKind =>
      (match ExactResult(op, ToLong(host, a), ToLong(host, b))
       case None => None
       case Some(x) => Some(Long(Wrap64(x))))
    case IntKind =>
      match ExactResult(op, ToInt(host, a), ToInt(host, b))
      case None => None
      case Some(x) => Some(Int(Wrap32(x)))
  }

  function BitwiseResult(host: Host, op: BinaryOp, a: Value, b: Value): Value {
    if WidestKind(a, b).LongKind? then
      Long(Wrap64(Bitwise(op, ToLong(host, a) % TWO_64, ToLong(host, b) % TWO_64, 64)))
    else
      Int(Wrap32(Bitwise(op, ToInt(host, a) % TWO_32, ToInt(host, b) % TWO_32, 32)))
  }

  function ShiftResult(host: Host, op: BinaryOp, a: Value, b: Value): Value {
    if KindOf(a).LongKind? then
      var shift := ToInt(host, b) % 64;
      Long(Wrap64(if op.ShiftLeft? then ToLong(host, a) * Pow2(shift) else ToLong(host, a) / Pow2(shift)))
    else
      var shift := ToInt(host, b) % 32;
      Int(Wrap32(if op.ShiftLeft? then ToInt(host, a) * Pow2(shift) else ToInt(host, a) / Pow2(shift)))
  }

  function RepeatResult(host: Host, a: Value, b: Value): Option<Value> {
    var text, count := TextOf(host, a), ToLong(host, b);
    if count <= 0 || text == [] then Some(Text([]))
    else if |text| * count > TWO_32 - 1 then None
    else Some(Text(RepeatText(text, count)))
  }

  /** What a two-operand opcode pushes for left operand `a` and right operand `b`;
      None is a runtime error. */
  function BinaryResult(host: Host, op: BinaryOp, a: Value, b: Value): Option<Value> {
    match op
    case Equal => Some(Bool(ValuesEqual(host, a, b)))
    case NotEqual => Some(Bool(!ValuesEqual(host, a, b)))
    case Less => Some(Bool(ValueLess(host, a, b)))
    case Greater => Some(Bool(ValueLess(host, b, a)))
    case LessEqual => Some(Bool(ValueLessEqual(host, a, b)))
    case GreaterEqual => Some(Bool(ValueLessEqual(host, b, a)))
    case Spaceship =>
      Some(Int(if ValueLess(host, a, b) then -1 else if ValueLess(host, b, a) then 1 else 0))
    case Concat => Some(Text(TextOf(host, a) + TextOf(host, b)))
    case Repeat => RepeatResult(host, a, b)
    case Power => Some(Double((host.doubleArith)(op, (host.asDouble)(a), (host.asDouble)(b))))
    case BitAnd => Some(BitwiseResult(host, op, a, b))
    case BitOr => Some(BitwiseResult(host, op, a, b))
    case BitXor => Some(BitwiseResult(host, op, a, b))
    case ShiftLeft => Some(ShiftResult(host, op, a, b))
    case ShiftRight => Some(ShiftResult(host, op, a, b))
    case _ => ArithmeticResult(host, op, a, b)
  }

  /** OP_INCREMENT and OP_DECREMENT: `delta` is 1 or -1. */
  function StepResult(host: Host, v: Value, increment: bool): Value {
    var one: Value := Int(1);
    match KindOf(v)
    case DoubleKind =>
      Double((host.doubleArith)(if increment then Add else Subtract, (host.asDouble)(v), (host.asDouble)(one)))
    case LongKind => Long(Wrap64(ToLong(host, v) + if increment then 1 else -1))
    case IntKind => Int(Wrap32(ToInt(host, v) + if increment then 1 else -1))
  }

  function NegateResult(host: Host, v: Value): Value {
    match KindOf(v)
    case DoubleKind => Double((host.doubleNegate)((host.asDouble)(v)))
    case LongKind => Long(Wrap64(0 - ToLong(host, v) as int))
    case IntKind => Int(Wrap32(0 - ToInt(host, v) as int))
  }
}
