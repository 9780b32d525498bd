/** The interpreter loop, restricted to one activation: one instruction is decoded
    at `ip` and changes the value stack, the twelve fixed slots at `base` and the
    three variable scopes. */
module Machine {
  import opened Values
  import opened Instructions

  const STACK_MAX := 4096
  const FIXED_SLOTS := 12

  type Slots = s: seq<Value> | |s| == 12 witness seq(12, _ => Null)

  /** The three levels scoped_variable_level searches, innermost first. */
  datatype Scopes = Scopes(local: map<string, Value>, closure: map<string, Value>, globals: map<string, Value>)

  /** What an activation can see: its fixed slots, its scopes, and `rest`, which
      stands for everything the model does not look into (heap objects, output, the
      iteration state of the frame). */
  datatype Store = Store(slots: Slots, scopes: Scopes, rest: nat)

  datatype ForeachItem = ForeachItem(cursor: Value, key: Value, value: Value, after: Store)

  /** The operations whose inside is not modelled. A call is seen only when it has
      returned: its result and the store it leaves. */
  datatype Env = Env(
    host: Host,
    implicitValue: (string, nat) -> (Value, nat),
    reference: (string, Store) -> (Value, Store),
    call: (string, Value, seq<Value>, Store) -> Option<(Value, Store)>,
    predicateBridge: (string, Value, Value, Store) -> (bool, Store),
    foreachNext: (bool, Value, Value, Store) -> Option<ForeachItem>)

  function ScopedGet(s: Scopes, name: string): Option<Value> {
    if name in s.local then Some(s.local[name])
    else if name in s.closure then Some(s.closure[name])
    else if name in s.globals then Some(s.globals[name])
    else None
  }

  function ScopedSet(s: Scopes, name: string, v: Value): Scopes {
    if name in s.local then s.(local := s.local[name := v])
    else if name in s.closure then s.(closure := s.closure[name := v])
    else s.(globals := s.globals[name := v])
  }

  function SetScoped(st: Store, name: string, v: Value): Store {
    st.(scopes := ScopedSet(st.scopes, name, v))
  }

  predicate IsScalarName(name: string) { name != [] && name[0] == '$' }

  /** OP_LOAD_GLOBAL: an unset name is first given its implicit value, null for a
      scalar. */
  function LoadScoped(env: Env, st: Store, name: string): (Value, Store) {
    match ScopedGet(st.scopes, name)
    case Some(v) => (v, st)
    case None =>
      var (v, rest) := if IsScalarName(name) then (Null, st.rest) else (env.implicitValue)(name, st.rest);
      (v, SetScoped(st.(rest := rest), name, v))
  }

  /** `base` is the offset of the frame's fixed slots in the stack; the operands of
      the activation lie above them. */
  datatype Machine = Machine(ip: nat, stack: seq<Value>, base: nat, scopes: Scopes, rest: nat)

  /** A run goes on, stops on a runtime error, or leaves the activation with a result. */
  datatype Outcome = Running(m: Machine) | Failed | Returned(v: Value, st: Store)

  datatype Program = Program(code: seq<Byte>, constants: seq<Value>, env: Env)

  /** The machine whose frame sits on `below`, with store `st` and operands `temps`. */
  function Config(ip: nat, below: seq<Value>, st: Store, temps: seq<Value>): Machine {
    Machine(ip, below + st.slots + temps, |below|, st.scopes, st.rest)
  }

  predicate HasFrame(m: Machine) { m.base + FIXED_SLOTS <= |m.stack| }

  function StoreOf(m: Machine): Store
    requires HasFrame(m)
  {
    Store(m.stack[m.base..m.base + FIXED_SLOTS], m.scopes, m.rest)
  }

  function Temps(m: Machine): seq<Value>
    requires HasFrame(m)
  {
    m.stack[m.base + FIXED_SLOTS..]
  }

  lemma ConfigView(ip: nat, below: seq<Value>, st: Store, temps: seq<Value>)
    ensures var m := Config(ip, below, st, temps);
            HasFrame(m) && StoreOf(m) == st && Temps(m) == temps && m.stack[..m.base] == below
  {
    var m := Config(ip, below, st, temps);
    assert m.stack[m.base..m.base + FIXED_SLOTS] == st.slots;
  }

  function ReversedSeq(s: seq<Value>): (r: seq<Value>)
    ensures |r| == |s|
  {
    if s == [] then [] else ReversedSeq(s[1..]) + [s[0]]
  }

  /** How many operands an instruction takes away or reads. */
  function Pops(i: Instr): nat {
    match i
    case Binary(_) | Swap | BinaryPredicate(_) | NegatedBinaryPredicate(_) => 2
    case ForeachNext(_) | ForeachNextValue(_) => 2
    case Negate | Not | Increment | Decrement | Pop | Return => 1
    case AndJump(_) | OrJump(_) | JumpIfFalse(_) | StoreLocal(_) | StoreGlobal(_) => 1
    case Reverse(count) => count
    case CallNamed(count, _) => count + 1
    case _ => 0
  }

  function ConstantName(p: Program, index: Short): Option<string> {
    if index < |p.constants| && p.constants[index].Text? then Some(p.constants[index].chars) else None
  }

  /** The name the compiler gives to a fixed slot of a nested function. */
  function SlotName(slot: nat): string {
    if 1 <= slot <= 10 then ['$', "0123456789"[slot - 1]] else if slot == 11 then "@_" else []
  }

  /** `jump` is added to an instruction pointer that already stands behind the
      instruction. */
  datatype Effect = Continue(st: Store, temps: seq<Value>, jump: int) | Fault | Leave(v: Value, st: Store)

  /** One instruction, on the store and the operand stack (top last). */
  function Apply(p: Program, i: Instr, st: Store, temps: seq<Value>): Effect
    requires Pops(i) <= |temps|
  {
    var host, n := p.env.host, |temps|;
    match i
    case PushNull => Continue(st, temps + [Null], 0)
    case PushTrue => Continue(st, temps + [Bool(true)], 0)
    case PushFalse => Continue(st, temps + [Bool(false)], 0)
    case PushConst(index) =>
      if index < |p.constants| then Continue(st, temps + [p.constants[index]], 0) else Fault
    case LoadLocal(slot) =>
      if slot < FIXED_SLOTS then Continue(st, temps + [st.slots[slot]], 0) else Fault
    case StoreLocal(slot) =>
      if slot < FIXED_SLOTS then Continue(st.(slots := st.slots[slot := temps[n - 1]]), temps, 0) else Fault
    case LoadGlobal(index) =>
      (match ConstantName(p, index)
       case None => Fault
       case Some(name) =>
         var (v, after) := LoadScoped(p.env, st, name);
         Continue(after, temps + [v], 0))
    case StoreGlobal(index) =>
      (match ConstantName(p, index)
       case None => Fault
       case Some(name) => Continue(SetScoped(st, name, temps[n - 1]), temps, 0))
    case ReferenceLocal(slot) =>
      var (v, after) := (p.env.reference)(SlotName(slot), st);
      Continue(after, temps + [v], 0)
    case ReferenceGlobal(index) =>
      (match ConstantName(p, index)
       case None => Fault
       case Some(name) =>
         var (v, after) := (p.env.reference)(name, st);
         Continue(after, temps + [v], 0))
    case Binary(op) =>
      (match BinaryResult(host, op, temps[n - 2], temps[n - 1])
       case None => Fault
       case Some(v) => Continue(st, temps[..n - 2] + [v], 0))
    case Negate => Continue(st, temps[..n - 1] + [NegateResult(host, temps[n - 1])], 0)
    case Not => Continue(st, temps[..n - 1] + [Bool(IsFalsy(temps[n - 1]))], 0)
    case AndJump(offset) =>
      if IsFalsy(temps[n - 1]) then Continue(st, temps, offset) else Continue(st, temps[..n - 1], 0)
    case OrJump(offset) =>
      if !IsFalsy(temps[n - 1]) then Continue(st, temps, offset) else Continue(st, temps[..n - 1], 0)
    case Increment => Continue(st, temps[..n - 1] + [StepResult(host, temps[n - 1], true)], 0)
    case Decrement => Continue(st, temps[..n - 1] + [StepResult(host, temps[n - 1], false)], 0)
    case BinaryPredicate(index) => ApplyPredicate(p, index, false, st, temps)
    case NegatedBinaryPredicate(index) => ApplyPredicate(p, index, true, st, temps)
    case Pop => Continue(st, temps[..n - 1], 0)
    case Swap => Continue(st, temps[..n - 2] + [temps[n - 1], temps[n - 2]], 0)
    case Reverse(count) => Continue(st, temps[..n - count] + ReversedSeq(temps[n - count..]), 0)
    case Jump(offset) => Continue(st, temps, offset)
    case JumpIfFalse(offset) => Continue(st, temps, if IsFalsy(temps[n - 1]) then offset else 0)
    case Loop(offset) => Continue(st, temps, if offset < 0x8000 then 0 - offset as int else 0x1_0000 - offset as int)
    case CallNamed(count, index) =>
      var keep := n - count - 1;
      (match ConstantName(p, index)
       case None => Fault
       case Some(name) =>
         match (p.env.call)(name, temps[keep], temps[keep + 1..], st)
         case None => Fault
         case Some((v, after)) => Continue(after, temps[..keep] + [v], 0))
    case ForeachNext(offset) => ApplyForeach(p, offset, false, st, temps)
    case ForeachNextValue(offset) => ApplyForeach(p, offset, true, st, temps)
    case Return => Leave(temps[n - 1], st)
    case Nop => Continue(st, temps, 0)
  }

  function ApplyPredicate(p: Program, index: Short, negate: bool, st: Store, temps: seq<Value>): Effect
    requires |temps| >= 2
  {
    var n := |temps|;
    match ConstantName(p, index)
    case None => Fault
    case Some(name) =>
      var (holds, after) := (p.env.predicateBridge)(name, temps[n - 2], temps[n - 1], st);
      Continue(after, temps[..n - 2] + [Bool(holds != negate)], 0)
  }

  /** OP_FOREACH_NEXT: the operands are the collection and the iteration position. */
  function ApplyForeach(p: Program, offset: Short, valueOnly: bool, st: Store, temps: seq<Value>): Effect
    requires |temps| >= 2
  {
    var n := |temps|;
    match (p.env.foreachNext)(valueOnly, temps[n - 2], temps[n - 1], st)
    case None => Continue(st, temps, offset)
    case Some(item) => Continue(item.after, temps[..n - 1] + [item.cursor, item.key, item.value], 0)
  }

  /** Where the effect of one instruction leads when the code after it starts at `ip`. */
  function After(ip: nat, below: seq<Value>, e: Effect): Outcome {
    match e
    case Fault => Failed
    case Leave(v, st) => Returned(v, st)
    case Continue(st, temps, jump) =>
      if ip + jump < 0 || |below| + FIXED_SLOTS + |temps| > STACK_MAX then Failed
      else Running(Config(ip + jump, below, st, temps))
  }

  /** One turn of the interpreter loop. An instruction that would reach below the
      operands of this activation fails; StackHeights shows that compiled code never
      does. */
  function Step(p: Program, m: Machine): Outcome {
    match Decode(p.code, m.ip)
    case None => Failed
    case Some(i) =>
      if !HasFrame(m) || Pops(i) > |Temps(m)| then Failed
      else After(m.ip + Length(i), m.stack[..m.base], Apply(p, i, StoreOf(m), Temps(m)))
  }

  function Run(p: Program, m: Machine, n: nat): Outcome
    decreases n
  {
    if n == 0 then Running(m)
    else
      match Step(p, m)
      case Running(next) => Run(p, next, n - 1)
      case other => other
  }

  lemma {:induction false} RunCompose(p: Program, m: Machine, a: nat, b: nat)
    ensures Run(p, m, a + b) ==
            match Run(p, m, a) { case Running(mid) => Run(p, mid, b) case other => other }
    decreases a
  {
    hide Step;
    if a > 0 && Step(p, m).Running? {
      RunCompose(p, Step(p, m).m, a - 1, b);
    }
  }

  lemma StepConfig(p: Program, ip: nat, below: seq<Value>, st: Store, temps: seq<Value>, i: Instr)
    requires At(p.code, ip, Encode(i)) && Pops(i) <= |temps|
    ensures Run(p, Config(ip, below, st, temps), 1) == After(ip + Length(i), below, Apply(p, i, st, temps))
  {
    DecodeEncode(p.code, ip, i);
    ConfigView(ip, below, st, temps);
    var m := Config(ip, below, st, temps);
    assert Run(p, m, 1) == match Step(p, m) { case Running(next) => Run(p, next, 0) case other => other };
  }
}
