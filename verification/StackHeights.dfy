/** Static stack heights: in compiled code every instruction boundary has one operand
    height on all paths, every jump lands on a boundary, and no instruction ever
    reaches below the operands into the fixed slots. */
module StackHeights {
  import opened Values
  import opened Instructions
  import opened Syntax
  import opened Machine
  import opened Codegen
  import opened CodeLayout
  import opened Unfolding

  /** Operand height for each instruction boundary. */
  type Heights = map<nat, nat>

  /** The height behind an instruction that goes on to the next one. */
  function Fall(i: Instr, h: nat): Option<nat>
    requires Pops(i) <= h
  {
    match i
    case Jump(_) | Loop(_) | Return => None
    case AndJump(_) | OrJump(_) | Pop => Some(h - 1)
    case Binary(_) | BinaryPredicate(_) | NegatedBinaryPredicate(_) => Some(h - 1)
    case CallNamed(count, _) => Some(h - count)
    case ForeachNext(_) | ForeachNextValue(_) => Some(h + 2)
    case PushNull | PushTrue | PushFalse | PushConst(_) => Some(h + 1)
    case LoadLocal(_) | LoadGlobal(_) | ReferenceLocal(_) | ReferenceGlobal(_) => Some(h + 1)
    case _ => Some(h)
  }

  /** How far an instruction may jump; every jump keeps the height. */
  function Displacement(i: Instr): Option<int> {
    match i
    case Jump(_) | AndJump(_) | OrJump(_) | JumpIfFalse(_) | ForeachNext(_) | ForeachNextValue(_) => Some(i.offset)
    case Loop(offset) => Some(if offset < 0x8000 then 0 - offset as int else 0x1_0000 - offset as int)
    case _ => None
  }

  /** The instruction at `ip` has its operands, and all its successors are boundaries
      with the height it leaves. */
  ghost predicate Checked(code: seq<Byte>, H: Heights, ip: nat)
    requires ip in H
  {
    match Decode(code, ip)
    case None => false
    case Some(i) =>
      var next := ip + Length(i);
      && Pops(i) <= H[ip]
      && next in H
      && (Fall(i, H[ip]).Some? ==> H[next] == Fall(i, H[ip]).value)
      && (Displacement(i).Some? ==>
            var target := next + Displacement(i).value;
            target >= 0 && target in H && H[target] == H[ip])
  }

  /** Reading instructions one after the other from `start` passes `ip`. */
  ghost predicate OnBoundary(code: seq<Byte>, start: nat, ip: nat)
    decreases ip - start
  {
    start == ip ||
    (start < ip && Decode(code, start).Some? &&
     OnBoundary(code, start + Length(Decode(code, start).value), ip))
  }

  lemma {:induction false} BoundaryTransitive(code: seq<Byte>, a: nat, b: nat, c: nat)
    requires OnBoundary(code, a, b) && OnBoundary(code, b, c) && b <= c
    ensures OnBoundary(code, a, c)
    decreases b - a
  {
    hide Decode, Encode;
    if a != b {
      BoundaryTransitive(code, a + Length(Decode(code, a).value), b, c);
    }
  }

  /** Code from `start` to `end`: heights for its boundaries, `h` at the start and `h'`
      at the end, and every instruction before the end checked. */
  ghost predicate Segment(code: seq<Byte>, H: Heights, start: nat, end: nat, h: nat, h': nat) {
    && start <= end
    && start in H && H[start] == h
    && end in H && H[end] == h'
    && (forall k :: k in H ==> start <= k <= end && OnBoundary(code, start, k))
    && (forall k :: k in H && k < end ==> Checked(code, H, k))
  }

  ghost predicate Extends(H: Heights, K: Heights) {
    forall k :: k in H ==> k in K && K[k] == H[k]
  }

  lemma StillChecked(code: seq<Byte>, H: Heights, K: Heights, ip: nat)
    requires ip in H && Checked(code, H, ip) && Extends(H, K)
    ensures ip in K && Checked(code, K, ip)
  {
    hide Decode, Encode, Fall, Displacement;
  }

  /** Two stretches of code that meet at `mid`. */
  lemma Append(code: seq<Byte>, H: Heights, K: Heights, a: nat, mid: nat, b: nat, h: nat, h1: nat, h2: nat)
    requires Segment(code, H, a, mid, h, h1) && Segment(code, K, mid, b, h1, h2)
    ensures Segment(code, H + K, a, b, h, h2)
    ensures Extends(H, H + K) && Extends(K, H + K)
  {
    hide Checked, OnBoundary;
    var J := H + K;
    forall k | k in J
      ensures a <= k <= b && OnBoundary(code, a, k)
      ensures k < b ==> Checked(code, J, k)
    {
      if k in K {
        BoundaryTransitive(code, a, mid, k);
        if k < b { StillChecked(code, K, J, k); }
      } else {
        StillChecked(code, H, J, k);
      }
    }
  }

  /** One instruction without a jump. */
  lemma One(code: seq<Byte>, ip: nat, i: Instr, h: nat) returns (H: Heights)
    requires At(code, ip, Encode(i)) && Pops(i) <= h && Displacement(i).None?
    ensures Segment(code, H, ip, ip + Length(i), h, if Fall(i, h).Some? then Fall(i, h).value else h)
  {
    hide Checked, Encode, Decode, Fall;
    var next := if Fall(i, h).Some? then Fall(i, h).value else h;
    H := map[ip := h, ip + Length(i) := next];
    StartBoundary(code, ip);
    BoundaryStep(code, ip, ip, i);
    PlainChecked(code, H, ip, i);
  }

  lemma BoundaryStep(code: seq<Byte>, start: nat, ip: nat, i: Instr)
    requires OnBoundary(code, start, ip) && At(code, ip, Encode(i)) && start <= ip
    ensures OnBoundary(code, start, ip + Length(i))
  {
    DecodeEncode(code, ip, i);
    hide Decode, Encode;
    assert OnBoundary(code, ip + Length(i), ip + Length(i));
    BoundaryTransitive(code, start, ip, ip + Length(i));
  }

  /** A segment followed by one instruction without a jump. */
  lemma AppendOne(code: seq<Byte>, H: Heights, a: nat, mid: nat, h: nat, h1: nat, i: Instr) returns (K: Heights)
    requires Segment(code, H, a, mid, h, h1)
    requires At(code, mid, Encode(i)) && Pops(i) <= h1 && Displacement(i).None?
    ensures Segment(code, K, a, mid + Length(i), h, if Fall(i, h1).Some? then Fall(i, h1).value else h1)
  {
    hide Checked, OnBoundary, Encode;
    var J := One(code, mid, i, h1);
    K := H + J;
    Append(code, H, J, a, mid, mid + Length(i), h, h1, if Fall(i, h1).Some? then Fall(i, h1).value else h1);
  }

  /** `left`, a short-circuit jump, `right`. */
  lemma ShortCircuitSegment(code: seq<Byte>, H: Heights, K: Heights, a: nat, mid: nat, end: nat, h: nat, jump: Instr)
    returns (J: Heights)
    requires Segment(code, H, a, mid, h, h + 1) && Segment(code, K, mid + 3, end, h, h + 1)
    requires (jump.AndJump? || jump.OrJump?) && jump.offset == end - mid - 3 && At(code, mid, Encode(jump))
    ensures Segment(code, J, a, end, h, h + 1)
  {
    hide Checked, OnBoundary;
    J := H + K;
    BoundaryStep(code, a, mid, jump);
    DecodeEncode(code, mid, jump);
    forall k | k in J
      ensures a <= k <= end && OnBoundary(code, a, k)
      ensures k < end ==> Checked(code, J, k)
    {
      if k in K {
        BoundaryTransitive(code, a, mid + 3, k);
        if k < end { StillChecked(code, K, J, k); }
      } else if k < mid {
        StillChecked(code, H, J, k);
      } else {
        JumpChecked(code, J, mid, jump);
      }
    }
  }

  /** A jump whose two successors have the right heights. */
  lemma JumpChecked(code: seq<Byte>, H: Heights, ip: nat, i: Instr)
    requires ip in H && At(code, ip, Encode(i)) && Displacement(i).Some? && Pops(i) <= H[ip]
    requires var next := ip + Length(i);
             var target := next + Displacement(i).value;
             && next in H && (Fall(i, H[ip]).Some? ==> H[next] == Fall(i, H[ip]).value)
             && target >= 0 && target in H && H[target] == H[ip]
    ensures Checked(code, H, ip)
  {
    DecodeEncode(code, ip, i);
    hide Decode, Encode;
  }

  lemma PlainChecked(code: seq<Byte>, H: Heights, ip: nat, i: Instr)
    requires ip in H && At(code, ip, Encode(i)) && Displacement(i).None? && Pops(i) <= H[ip]
    requires ip + Length(i) in H && (Fall(i, H[ip]).Some? ==> H[ip + Length(i)] == Fall(i, H[ip]).value)
    ensures Checked(code, H, ip)
  {
    DecodeEncode(code, ip, i);
    hide Decode, Encode;
  }

  lemma StartBoundary(code: seq<Byte>, start: nat)
    ensures OnBoundary(code, start, start)
  {
  }

  /** A segment inside a longer stretch of code that starts at `start`. */
  lemma Inside(code: seq<Byte>, B: Heights, J: Heights, start: nat, s: nat, e: nat, h: nat, h': nat)
    requires Segment(code, B, s, e, h, h') && Extends(B, J) && start <= s && OnBoundary(code, start, s)
    ensures forall k :: k in B ==> s <= k <= e && OnBoundary(code, start, k)
    ensures forall k :: k in B && k < e ==> k in J && Checked(code, J, k)
    ensures OnBoundary(code, start, e)
  {
    hide Checked, OnBoundary;
    forall k | k in B
      ensures OnBoundary(code, start, k)
      ensures k < e ==> k in J && Checked(code, J, k)
    {
      BoundaryTransitive(code, start, s, k);
      if k < e { StillChecked(code, B, J, k); }
    }
  }

  lemma Lengths(distance: Short)
    ensures Length(JumpIfFalse(distance)) == 3 && Length(Jump(distance)) == 3 && Length(Loop(distance)) == 3
    ensures Length(ForeachNext(distance)) == 3 && Length(ForeachNextValue(distance)) == 3
    ensures Length(Pop) == 1
  {
  }

  /** JUMP_IF_FALSE and the POP behind it. */
  lemma TestPair(code: seq<Byte>, J: Heights, start: nat, a: nat, distance: Short, h: nat)
    requires start <= a && OnBoundary(code, start, a)
    requires At(code, a, Encode(JumpIfFalse(distance))) && At(code, a + 3, Encode(Pop))
    requires a in J && J[a] == h + 1 && a + 3 in J && J[a + 3] == h + 1 && a + 4 in J && J[a + 4] == h
    requires a + 3 + distance in J && J[a + 3 + distance] == h + 1
    ensures OnBoundary(code, start, a + 3) && OnBoundary(code, start, a + 4)
    ensures Checked(code, J, a) && Checked(code, J, a + 3)
  {
    hide Checked, OnBoundary, Encode, At, Length;
    Lengths(distance);
    BoundaryStep(code, start, a, JumpIfFalse(distance));
    BoundaryStep(code, start, a + 3, Pop);
    JumpChecked(code, J, a, JumpIfFalse(distance));
    PlainChecked(code, J, a + 3, Pop);
  }

  /** A jump that is always taken, and the POP behind it, which others jump to. */
  lemma LeavePair(code: seq<Byte>, J: Heights, start: nat, b: nat, jump: Instr, target: nat, h: nat)
    requires start <= b && OnBoundary(code, start, b) && (jump.Jump? || jump.Loop?)
    requires At(code, b, Encode(jump)) && At(code, b + 3, Encode(Pop))
    requires b in J && b + 3 in J && J[b + 3] == h + 1 && b + 4 in J && J[b + 4] == h
    requires Displacement(jump) == Some(target - (b + 3)) && target in J && J[target] == J[b]
    ensures OnBoundary(code, start, b + 3) && OnBoundary(code, start, b + 4)
    ensures Checked(code, J, b) && Checked(code, J, b + 3)
  {
    hide Checked, OnBoundary, Encode, At, Length;
    Lengths(jump.offset);
    BoundaryStep(code, start, b, jump);
    BoundaryStep(code, start, b + 3, Pop);
    JumpChecked(code, J, b, jump);
    PlainChecked(code, J, b + 3, Pop);
  }

  /** Condition, JUMP_IF_FALSE, POP, first, JUMP, POP, second: both branches change the
      height from `h` to `h'`. */
  lemma BranchSegment(code: seq<Byte>, C: Heights, F: Heights, S: Heights, start: nat, a: nat, b: nat, end: nat, h: nat, h': nat)
    returns (J: Heights)
    requires Segment(code, C, start, a, h, h + 1)
    requires Segment(code, F, a + 4, b, h, h') && Segment(code, S, b + 4, end, h, h')
    requires b - a <= SHORT_MAX && At(code, a, Encode(JumpIfFalse(b - a))) && At(code, a + 3, Encode(Pop))
    requires end - b - 3 <= SHORT_MAX && At(code, b, Encode(Jump(end - b - 3))) && At(code, b + 3, Encode(Pop))
    ensures Segment(code, J, start, end, h, h')
  {
    hide Checked, OnBoundary, Encode, At;
    J := C + map[a + 3 := h + 1] + F + map[b + 3 := h + 1] + S;
    assert Extends(C, J) && Extends(F, J) && Extends(S, J);
    BranchJoined(code, C, F, S, J, start, a, b, end, h, h');
  }

  lemma BranchJoined(code: seq<Byte>, C: Heights, F: Heights, S: Heights, J: Heights, start: nat, a: nat, b: nat, end: nat, h: nat, h': nat)
    requires Segment(code, C, start, a, h, h + 1)
    requires Segment(code, F, a + 4, b, h, h') && Segment(code, S, b + 4, end, h, h')
    requires b - a <= SHORT_MAX && At(code, a, Encode(JumpIfFalse(b - a))) && At(code, a + 3, Encode(Pop))
    requires end - b - 3 <= SHORT_MAX && At(code, b, Encode(Jump(end - b - 3))) && At(code, b + 3, Encode(Pop))
    requires Extends(C, J) && Extends(F, J) && Extends(S, J)
    requires a + 3 in J && J[a + 3] == h + 1 && b + 3 in J && J[b + 3] == h + 1
    requires forall k :: k in J ==> k in C || k in F || k in S || k == a + 3 || k == b + 3
    ensures Segment(code, J, start, end, h, h')
  {
    hide Checked, OnBoundary, Encode, At, Length;
    StartBoundary(code, start);
    Inside(code, C, J, start, start, a, h, h + 1);
    TestPair(code, J, start, a, b - a, h);
    Inside(code, F, J, start, a + 4, b, h, h');
    LeavePair(code, J, start, b, Jump(end - b - 3), end, h);
    Inside(code, S, J, start, b + 4, end, h, h');
  }

  /** Condition, JUMP_IF_FALSE, POP, body, LOOP, POP. */
  lemma LoopSegment(code: seq<Byte>, C: Heights, B: Heights, start: nat, a: nat, b: nat, h: nat)
    returns (J: Heights)
    requires Segment(code, C, start, a, h, h + 1) && Segment(code, B, a + 4, b, h, h)
    requires b - a <= SHORT_MAX && At(code, a, Encode(JumpIfFalse(b - a))) && At(code, a + 3, Encode(Pop))
    requires b + 3 - start <= LOOP_MAX && At(code, b, Encode(Loop(b + 3 - start))) && At(code, b + 3, Encode(Pop))
    ensures Segment(code, J, start, b + 4, h, h)
  {
    hide Checked, OnBoundary, Encode, At;
    J := C + map[a + 3 := h + 1] + B + map[b + 3 := h + 1, b + 4 := h];
    assert Extends(C, J) && Extends(B, J);
    LoopJoined(code, C, B, J, start, a, b, h);
  }

  lemma LoopJoined(code: seq<Byte>, C: Heights, B: Heights, J: Heights, start: nat, a: nat, b: nat, h: nat)
    requires Segment(code, C, start, a, h, h + 1) && Segment(code, B, a + 4, b, h, h)
    requires b - a <= SHORT_MAX && At(code, a, Encode(JumpIfFalse(b - a))) && At(code, a + 3, Encode(Pop))
    requires b + 3 - start <= LOOP_MAX && At(code, b, Encode(Loop(b + 3 - start))) && At(code, b + 3, Encode(Pop))
    requires Extends(C, J) && Extends(B, J)
    requires a + 3 in J && J[a + 3] == h + 1 && b + 3 in J && J[b + 3] == h + 1 && b + 4 in J && J[b + 4] == h
    requires forall k :: k in J ==> k in C || k in B || k == a + 3 || k == b + 3 || k == b + 4
    ensures Segment(code, J, start, b + 4, h, h)
  {
    hide Checked, OnBoundary, Encode, At, Length;
    StartBoundary(code, start);
    Inside(code, C, J, start, start, a, h, h + 1);
    TestPair(code, J, start, a, b - a, h);
    Inside(code, B, J, start, a + 4, b, h, h);
    LeavePair(code, J, start, b, Loop(b + 3 - start), start, h);
  }

  /** Body, LOOP; nothing falls out of the end. */
  lemma EndlessSegment(code: seq<Byte>, B: Heights, start: nat, b: nat, h: nat) returns (J: Heights)
    requires Segment(code, B, start, b, h, h)
    requires b + 3 - start <= LOOP_MAX && At(code, b, Encode(Loop(b + 3 - start)))
    ensures Segment(code, J, start, b + 3, h, h)
  {
    hide Checked, OnBoundary;
    J := B + map[b + 3 := h];
    assert Extends(B, J) && Length(Loop(b + 3 - start)) == 3;
    BoundaryStep(code, start, b, Loop(b + 3 - start));
    forall k | k in J
      ensures start <= k <= b + 3 && OnBoundary(code, start, k)
      ensures k < b + 3 ==> Checked(code, J, k)
    {
      if k < b {
        StillChecked(code, B, J, k);
      } else if k == b {
        JumpChecked(code, J, k, Loop(b + 3 - start));
      }
    }
  }

  /** FOREACH_NEXT, body, LOOP, POP, POP; collection and position are the two topmost
      operands throughout, key and value are above them when the body starts. */
  lemma ForeachSegment(code: seq<Byte>, B: Heights, start: nat, b: nat, h: nat, next: Instr) returns (J: Heights)
    requires Segment(code, B, start + 3, b, h + 4, h + 2)
    requires (next.ForeachNext? || next.ForeachNextValue?) && next.offset == b - start
    requires At(code, start, Encode(next))
    requires b + 3 - start <= LOOP_MAX && At(code, b, Encode(Loop(b + 3 - start)))
    requires At(code, b + 3, Encode(Pop)) && At(code, b + 4, Encode(Pop))
    ensures Segment(code, J, start, b + 5, h + 2, h)
  {
    hide Checked, OnBoundary, Encode, At;
    J := map[start := h + 2] + B + map[b + 3 := h + 2, b + 4 := h + 1, b + 5 := h];
    assert Extends(B, J);
    ForeachJoined(code, B, J, start, b, h, next);
  }

  lemma ForeachJoined(code: seq<Byte>, B: Heights, J: Heights, start: nat, b: nat, h: nat, next: Instr)
    requires Segment(code, B, start + 3, b, h + 4, h + 2)
    requires (next.ForeachNext? || next.ForeachNextValue?) && next.offset == b - start
    requires At(code, start, Encode(next))
    requires b + 3 - start <= LOOP_MAX && At(code, b, Encode(Loop(b + 3 - start)))
    requires At(code, b + 3, Encode(Pop)) && At(code, b + 4, Encode(Pop))
    requires Extends(B, J) && start in J && J[start] == h + 2
    requires b + 3 in J && J[b + 3] == h + 2 && b + 4 in J && J[b + 4] == h + 1 && b + 5 in J && J[b + 5] == h
    requires forall k :: k in J ==> k in B || k == start || k == b + 3 || k == b + 4 || k == b + 5
    ensures Segment(code, J, start, b + 5, h + 2, h)
  {
    hide Checked, OnBoundary, Encode, At, Length;
    Lengths(b - start);
    Lengths(b + 3 - start);
    StartBoundary(code, start);
    BoundaryStep(code, start, start, next);
    Inside(code, B, J, start, start + 3, b, h + 4, h + 2);
    BoundaryStep(code, start, b, Loop(b + 3 - start));
    BoundaryStep(code, start, b + 3, Pop);
    BoundaryStep(code, start, b + 4, Pop);
    JumpChecked(code, J, start, next);
    JumpChecked(code, J, b, Loop(b + 3 - start));
    PlainChecked(code, J, b + 3, Pop);
    PlainChecked(code, J, b + 4, Pop);
  }

  lemma Nothing(code: seq<Byte>, ip: nat, h: nat) returns (H: Heights)
    ensures Segment(code, H, ip, ip, h, h)
  {
    H := map[ip := h];
  }

  // ----- compiled code -----

  lemma LoadHeights(code: seq<Byte>, ip: nat, name: string, pool: seq<Value>, nested: bool, h: nat) returns (H: Heights)
    requires Sits(code, ip, LoadCode(name, pool, nested))
    ensures Segment(code, H, ip, ip + |LoadCode(name, pool, nested).bytes|, h, h + 1)
  {
    hide Segment, Encode, At;
    match SlotOf(name, nested)
    case Some(slot) => H := One(code, ip, LoadLocal(slot), h);
    case None => H := One(code, ip, LoadGlobal(NameOperand(pool, name)), h);
  }

  lemma StoreHeights(code: seq<Byte>, ip: nat, name: string, pool: seq<Value>, nested: bool, h: nat) returns (H: Heights)
    requires Sits(code, ip, StoreCode(name, pool, nested)) && h >= 1
    ensures Segment(code, H, ip, ip + |StoreCode(name, pool, nested).bytes|, h, h)
  {
    hide Segment, Encode, At;
    match SlotOf(name, nested)
    case Some(slot) => H := One(code, ip, StoreLocal(slot), h);
    case None => H := One(code, ip, StoreGlobal(NameOperand(pool, name)), h);
  }

  lemma ReferenceHeights(code: seq<Byte>, ip: nat, name: string, pool: seq<Value>, nested: bool, h: nat) returns (H: Heights)
    requires Sits(code, ip, ReferenceCode(name, pool, nested))
    ensures Segment(code, H, ip, ip + |ReferenceCode(name, pool, nested).bytes|, h, h + 1)
  {
    hide Segment, Encode, At;
    match SlotOf(name, nested)
    case Some(slot) => H := One(code, ip, ReferenceLocal(slot), h);
    case None => H := One(code, ip, ReferenceGlobal(ConstantOperand(pool, Text(name))), h);
  }

  lemma BridgeHeights(code: seq<Byte>, ip: nat, name: string, negate: bool, pool: seq<Value>, h: nat) returns (H: Heights)
    requires Sits(code, ip, BridgeCode(name, negate, pool)) && h >= 2
    ensures Segment(code, H, ip, ip + |BridgeCode(name, negate, pool).bytes|, h, h - 1)
  {
    hide Segment, Encode, At;
    var operand := ConstantOperand(pool, Text(name));
    H := One(code, ip, if negate then NegatedBinaryPredicate(operand) else BinaryPredicate(operand), h);
  }

  /** The call takes its arguments and its target and leaves one result. */
  lemma CallHeights(code: seq<Byte>, ip: nat, name: string, count: nat, pool: seq<Value>, h: nat) returns (H: Heights)
    requires Sits(code, ip, CallCode(name, count, pool)) && h >= count + 1
    ensures Segment(code, H, ip, ip + |CallCode(name, count, pool).bytes|, h, h - count)
  {
    hide Segment, Encode, At;
    var reverse := if count > 1 then Encode(Reverse(count)) else [];
    var call := CallNamed(count, ConstantOperand(pool, Text(name)));
    AtSplit(code, ip, reverse, Encode(call));
    if count > 1 {
      H := One(code, ip, Reverse(count), h);
      H := AppendOne(code, H, ip, ip + |reverse|, h, h, call);
    } else {
      H := One(code, ip, call, h);
    }
  }

  /** Any expression raises the height by one, through heights that depend only on the
      place in the code. */
  lemma {:induction false} ExprHeights(code: seq<Byte>, ip: nat, e: Expr, pool: seq<Value>, nested: bool, h: nat)
    returns (H: Heights)
    requires Sits(code, ip, CompileExpr(e, pool, nested))
    ensures Segment(code, H, ip, ip + |CompileExpr(e, pool, nested).bytes|, h, h + 1)
    decreases e, 2
  {
    hide Segment, Encode, At, CompileExpr;
    match e
    case Binop(_, _, _) => H := BinaryHeights(code, ip, e, pool, nested, h);
    case Bridge(_, _, _, _) => H := BinaryHeights(code, ip, e, pool, nested, h);
    case And(_, _) => H := LogicalHeights(code, ip, e, pool, nested, h);
    case Or(_, _) => H := LogicalHeights(code, ip, e, pool, nested, h);
    case Not(_) => H := UnaryHeights(code, ip, e, pool, nested, h);
    case Minus(_) => H := UnaryHeights(code, ip, e, pool, nested, h);
    case Iff(args) =>
      if |args| == 0 { H := LeafHeights(code, ip, e, pool, nested, h); } else { H := IffHeights(code, ip, e, pool, nested, h); }
    case Assign(_, _) => H := AssignHeights(code, ip, e, pool, nested, h);
    case OpAssign(_, _, _) => H := OpAssignHeights(code, ip, e, pool, nested, h);
    case Bump(_, _) => H := BumpHeights(code, ip, e, pool, nested, h);
    case Call(_, _) => H := CallExprHeights(code, ip, e, pool, nested, h);
    case _ => H := LeafHeights(code, ip, e, pool, nested, h);
  }

  lemma {:induction false} LeafHeights(code: seq<Byte>, ip: nat, e: Expr, pool: seq<Value>, nested: bool, h: nat)
    returns (H: Heights)
    requires e.Literal? || e.NullLiteral? || e.BoolLiteral? || e.Variable? || (e.Iff? && e.args == [])
    requires Sits(code, ip, CompileExpr(e, pool, nested))
    ensures Segment(code, H, ip, ip + |CompileExpr(e, pool, nested).bytes|, h, h + 1)
    decreases e, 0
  {
    hide Segment, Encode, At, LoadCode, CompileArgs;
    if e.Literal? {
      H := One(code, ip, PushConst(ConstantOperand(pool, e.v)), h);
    } else if e.BoolLiteral? {
      H := One(code, ip, if e.b then PushTrue else PushFalse, h);
    } else if e.Variable? {
      H := LoadHeights(code, ip, e.name, pool, nested, h);
    } else {
      H := One(code, ip, PushNull, h);
    }
  }

  lemma {:induction false} BinaryHeights(code: seq<Byte>, ip: nat, e: Expr, pool: seq<Value>, nested: bool, h: nat)
    returns (H: Heights)
    requires e.Binop? || e.Bridge?
    requires Sits(code, ip, CompileExpr(e, pool, nested))
    ensures Segment(code, H, ip, ip + |CompileExpr(e, pool, nested).bytes|, h, h + 1)
    decreases e, 1
  {
    hide Checked, OnBoundary, Encode, At, Segment, CompileExpr, Then, Plus, ShortCircuit, Branch, LoadCode, StoreCode,
      ReferenceCode, BridgeCode, CallCode, PushConstantCode;
    if e.Binop? {
      BinopCode(e.op, e.left, e.right, pool, nested);
      var r := CompileExpr(e.right, pool, nested);
      var l := CompileExpr(e.left, r.pool, nested);
      PlusLayout(code, ip, Plus(Then(r, l), Swap), Binary(e.op));
      PlusLayout(code, ip, Then(r, l), Swap);
      ThenLayout(code, ip, r, l);
      var R := ExprHeights(code, ip, e.right, pool, nested, h);
      var L := ExprHeights(code, ip + |r.bytes|, e.left, r.pool, nested, h + 1);
      var at := ip + |r.bytes| + |l.bytes|;
      Append(code, R, L, ip, ip + |r.bytes|, at, h, h + 1, h + 2);
      H := AppendOne(code, R + L, ip, at, h, h + 2, Swap);
      H := AppendOne(code, H, ip, at + Length(Swap), h, h + 2, Binary(e.op));
    } else {
      BridgeExprCode(e.name, e.negate, e.left, e.right, pool, nested);
      var l := CompileExpr(e.left, pool, nested);
      var r := CompileExpr(e.right, l.pool, nested);
      var b := BridgeCode(e.name, e.negate, r.pool);
      ThenLayout(code, ip, Then(l, r), b);
      ThenLayout(code, ip, l, r);
      var L := ExprHeights(code, ip, e.left, pool, nested, h);
      var R := ExprHeights(code, ip + |l.bytes|, e.right, l.pool, nested, h + 1);
      var at := ip + |l.bytes| + |r.bytes|;
      Append(code, L, R, ip, ip + |l.bytes|, at, h, h + 1, h + 2);
      var B := BridgeHeights(code, at, e.name, e.negate, r.pool, h + 2);
      Append(code, L + R, B, ip, at, at + |b.bytes|, h, h + 2, h + 1);
      H := L + R + B;
    }
  }

  lemma {:induction false} LogicalHeights(code: seq<Byte>, ip: nat, e: Expr, pool: seq<Value>, nested: bool, h: nat)
    returns (H: Heights)
    requires e.And? || e.Or?
    requires Sits(code, ip, CompileExpr(e, pool, nested))
    ensures Segment(code, H, ip, ip + |CompileExpr(e, pool, nested).bytes|, h, h + 1)
    decreases e, 1
  {
    hide Checked, OnBoundary, Encode, At, Segment, CompileExpr, Then, Plus, ShortCircuit, Branch, LoadCode, StoreCode,
      ReferenceCode, BridgeCode, CallCode, PushConstantCode;
    LogicalCode(e.left, e.right, pool, nested);
    var l := CompileExpr(e.left, pool, nested);
    var r := CompileExpr(e.right, l.pool, nested);
    ShortCircuitLayout(code, ip, l, e.And?, r);
    var L := ExprHeights(code, ip, e.left, pool, nested, h);
    var mid := ip + |l.bytes|;
    var R := ExprHeights(code, mid + 3, e.right, l.pool, nested, h);
    H := ShortCircuitSegment(code, L, R, ip, mid, mid + 3 + |r.bytes|, h,
                             if e.And? then AndJump(|r.bytes|) else OrJump(|r.bytes|));
  }

  lemma {:induction false} UnaryHeights(code: seq<Byte>, ip: nat, e: Expr, pool: seq<Value>, nested: bool, h: nat)
    returns (H: Heights)
    requires e.Not? || e.Minus?
    requires Sits(code, ip, CompileExpr(e, pool, nested))
    ensures Segment(code, H, ip, ip + |CompileExpr(e, pool, nested).bytes|, h, h + 1)
    decreases e, 1
  {
    hide Checked, OnBoundary, Encode, At, Segment, CompileExpr, Then, Plus, ShortCircuit, Branch, LoadCode, StoreCode,
      ReferenceCode, BridgeCode, CallCode, PushConstantCode;
    UnaryCode(e.operand, pool, nested);
    var c := CompileExpr(e.operand, pool, nested);
    var i := if e.Not? then Instr.Not else Negate;
    PlusLayout(code, ip, c, i);
    H := ExprHeights(code, ip, e.operand, pool, nested, h);
    H := AppendOne(code, H, ip, ip + |c.bytes|, h, h + 1, i);
  }

  lemma {:induction false} IffHeights(code: seq<Byte>, ip: nat, e: Expr, pool: seq<Value>, nested: bool, h: nat)
    returns (H: Heights)
    requires e.Iff? && |e.args| > 0
    requires Sits(code, ip, CompileExpr(e, pool, nested))
    ensures Segment(code, H, ip, ip + |CompileExpr(e, pool, nested).bytes|, h, h + 1)
    decreases e, 1
  {
    hide Checked, OnBoundary, Encode, At, Segment, CompileExpr, Then, Plus, ShortCircuit, Branch, LoadCode, StoreCode,
      ReferenceCode, BridgeCode, CallCode, IffTest, IffFirst, IffSecond;
    IffCode(e.args, pool, nested);
    var c := IffTest(e.args, pool, nested);
    var t := IffFirst(e.args, c.pool, nested);
    var f := IffSecond(e.args, t.pool, nested);
    BranchLayout(code, ip, c, t, f);
    var a := ip + |c.bytes|;
    var b := a + 4 + |t.bytes|;
    var C := IffPartHeights(code, ip, e, 0, pool, nested, h);
    var T := IffPartHeights(code, a + 4, e, 1, c.pool, nested, h);
    var F := IffPartHeights(code, b + 4, e, 2, t.pool, nested, h);
    H := BranchSegment(code, C, T, F, ip, a, b, b + 4 + |f.bytes|, h, h + 1);
  }

  function IffPart(args: seq<Expr>, k: nat, pool: seq<Value>, nested: bool): Code
    requires |args| > 0
  {
    if k == 0 then IffTest(args, pool, nested)
    else if k == 1 then IffFirst(args, pool, nested)
    else IffSecond(args, pool, nested)
  }

  lemma {:induction false} IffPartHeights(code: seq<Byte>, ip: nat, e: Expr, k: nat, pool: seq<Value>, nested: bool, h: nat)
    returns (H: Heights)
    requires e.Iff? && |e.args| > 0 && k <= 2
    requires Sits(code, ip, IffPart(e.args, k, pool, nested))
    ensures Segment(code, H, ip, ip + |IffPart(e.args, k, pool, nested).bytes|, h, h + 1)
    decreases e, 0
  {
    hide Segment, Encode, At, CompileExpr;
    if k < |e.args| && (k > 0 || IsPredicateShape(e.args[0])) {
      H := ExprHeights(code, ip, e.args[k], pool, nested, h);
    } else if k == 0 {
      H := One(code, ip, PushFalse, h);
    } else if k == 1 {
      H := One(code, ip, PushConst(ConstantOperand(pool, Int(1))), h);
    } else {
      H := One(code, ip, PushNull, h);
    }
  }

  lemma {:induction false} AssignHeights(code: seq<Byte>, ip: nat, e: Expr, pool: seq<Value>, nested: bool, h: nat)
    returns (H: Heights)
    requires e.Assign?
    requires Sits(code, ip, CompileExpr(e, pool, nested))
    ensures Segment(code, H, ip, ip + |CompileExpr(e, pool, nested).bytes|, h, h + 1)
    decreases e, 1
  {
    hide Checked, OnBoundary, Encode, At, Segment, CompileExpr, Then, Plus, ShortCircuit, Branch, LoadCode, StoreCode,
      ReferenceCode, BridgeCode, CallCode, PushConstantCode;
    AssignCode(e.name, e.right, pool, nested);
    var r := CompileExpr(e.right, pool, nested);
    var w := StoreCode(e.name, r.pool, nested);
    ThenLayout(code, ip, r, w);
    var R := ExprHeights(code, ip, e.right, pool, nested, h);
    var W := StoreHeights(code, ip + |r.bytes|, e.name, r.pool, nested, h + 1);
    Append(code, R, W, ip, ip + |r.bytes|, ip + |r.bytes| + |w.bytes|, h, h + 1, h + 1);
    H := R + W;
  }

  lemma {:induction false} OpAssignHeights(code: seq<Byte>, ip: nat, e: Expr, pool: seq<Value>, nested: bool, h: nat)
    returns (H: Heights)
    requires e.OpAssign?
    requires Sits(code, ip, CompileExpr(e, pool, nested))
    ensures Segment(code, H, ip, ip + |CompileExpr(e, pool, nested).bytes|, h, h + 1)
    decreases e, 1
  {
    hide Checked, OnBoundary, Encode, At, Segment, CompileExpr, Then, Plus, ShortCircuit, Branch, LoadCode, StoreCode,
      ReferenceCode, BridgeCode, CallCode, PushConstantCode;
    OpAssignCode(e.name, e.cop, e.right, pool, nested);
    var l := LoadCode(e.name, pool, nested);
    var r := CompileExpr(e.right, l.pool, nested);
    var w := StoreCode(e.name, r.pool, nested);
    ThenLayout(code, ip, Plus(Then(l, r), Binary(e.cop)), w);
    PlusLayout(code, ip, Then(l, r), Binary(e.cop));
    ThenLayout(code, ip, l, r);
    var L := LoadHeights(code, ip, e.name, pool, nested, h);
    var R := ExprHeights(code, ip + |l.bytes|, e.right, l.pool, nested, h + 1);
    var at := ip + |l.bytes| + |r.bytes|;
    Append(code, L, R, ip, ip + |l.bytes|, at, h, h + 1, h + 2);
    var B := AppendOne(code, L + R, ip, at, h, h + 2, Binary(e.cop));
    var next := at + Length(Binary(e.cop));
    var W := StoreHeights(code, next, e.name, r.pool, nested, h + 1);
    Append(code, B, W, ip, next, next + |w.bytes|, h, h + 1, h + 1);
    H := B + W;
  }

  lemma {:induction false} BumpHeights(code: seq<Byte>, ip: nat, e: Expr, pool: seq<Value>, nested: bool, h: nat)
    returns (H: Heights)
    requires e.Bump?
    requires Sits(code, ip, CompileExpr(e, pool, nested))
    ensures Segment(code, H, ip, ip + |CompileExpr(e, pool, nested).bytes|, h, h + 1)
    decreases e, 1
  {
    hide Checked, OnBoundary, Encode, At, Segment, Then, Plus, LoadCode, StoreCode;
    var l := LoadCode(e.name, pool, nested);
    var i := if e.increment then Increment else Decrement;
    var w := StoreCode(e.name, l.pool, nested);
    assert CompileExpr(e, pool, nested) == Then(Plus(l, i), w);
    ThenLayout(code, ip, Plus(l, i), w);
    PlusLayout(code, ip, l, i);
    var L := LoadHeights(code, ip, e.name, pool, nested, h);
    var at := ip + |l.bytes|;
    var B := AppendOne(code, L, ip, at, h, h + 1, i);
    var W := StoreHeights(code, at + Length(i), e.name, l.pool, nested, h + 1);
    Append(code, B, W, ip, at + Length(i), at + Length(i) + |w.bytes|, h, h + 1, h + 1);
    H := B + W;
  }

  lemma PlusKeepsPool(c: Code, i: Instr)
    ensures Plus(c, i).pool == c.pool
  {
  }

  lemma {:induction false} CallExprHeights(code: seq<Byte>, ip: nat, e: Expr, pool: seq<Value>, nested: bool, h: nat)
    returns (H: Heights)
    requires e.Call?
    requires Sits(code, ip, CompileExpr(e, pool, nested))
    ensures Segment(code, H, ip, ip + |CompileExpr(e, pool, nested).bytes|, h, h + 1)
    decreases e, 1
  {
    hide Checked, OnBoundary, Encode, At, Segment, CompileExpr, Then, Plus, ShortCircuit, Branch, LoadCode, StoreCode,
      ReferenceCode, BridgeCode, CallCode, CompileArgs;
    CallExprCode(e.name, e.args, pool, nested);
    var l := LoadCode(e.name, pool, nested);
    var a := CompileArgs(e.args, l.pool, nested);
    var c := CallCode(e.name, |e.args|, a.pool);
    ThenLayout(code, ip, Then(l, a), c);
    ThenLayout(code, ip, l, a);
    var L := LoadHeights(code, ip, e.name, pool, nested, h);
    var A := ArgsHeights(code, ip + |l.bytes|, e.args, l.pool, nested, h + 1);
    var at := ip + |l.bytes| + |a.bytes|;
    Append(code, L, A, ip, ip + |l.bytes|, at, h, h + 1, h + 1 + |e.args|);
    var C := CallHeights(code, at, e.name, |e.args|, a.pool, h + 1 + |e.args|);
    Append(code, L + A, C, ip, at, at + |c.bytes|, h, h + 1 + |e.args|, h + 1);
    H := L + A + C;
  }

  lemma {:induction false} ArgsHeights(code: seq<Byte>, ip: nat, args: seq<Expr>, pool: seq<Value>, nested: bool, h: nat)
    returns (H: Heights)
    requires Sits(code, ip, CompileArgs(args, pool, nested))
    ensures Segment(code, H, ip, ip + |CompileArgs(args, pool, nested).bytes|, h, h + |args|)
    decreases args, 4
  {
    hide Checked, OnBoundary, Encode, At, Segment, CompileExpr, Then, ReferenceCode;
    if args == [] {
      H := Nothing(code, ip, h);
    } else {
      var last := args[|args| - 1];
      var c := CompileArg(last, pool, nested);
      var d := CompileArgs(args[..|args| - 1], c.pool, nested);
      ThenLayout(code, ip, c, d);
      var C;
      if last.Variable? {
        C := ReferenceHeights(code, ip, last.name, pool, nested, h);
      } else {
        C := ExprHeights(code, ip, last, pool, nested, h);
      }
      var D := ArgsHeights(code, ip + |c.bytes|, args[..|args| - 1], c.pool, nested, h + 1);
      Append(code, C, D, ip, ip + |c.bytes|, ip + |c.bytes| + |d.bytes|, h, h + 1, h + |args|);
      H := C + D;
    }
  }

  lemma {:induction false} EachHeights(code: seq<Byte>, ip: nat, es: seq<Expr>, pool: seq<Value>, nested: bool, h: nat)
    returns (H: Heights)
    requires Sits(code, ip, CompileEach(es, pool, nested))
    ensures Segment(code, H, ip, ip + |CompileEach(es, pool, nested).bytes|, h, h)
    decreases es, 4
  {
    hide Checked, OnBoundary, Encode, At, Segment, CompileExpr, Then, Plus;
    if es == [] {
      H := Nothing(code, ip, h);
    } else {
      var c := CompileExpr(es[0], pool, nested);
      PlusKeepsPool(c, Pop);
      var d := CompileEach(es[1..], c.pool, nested);
      ThenLayout(code, ip, Plus(c, Pop), d);
      PlusLayout(code, ip, c, Pop);
      var C := ExprHeights(code, ip, es[0], pool, nested, h);
      C := AppendOne(code, C, ip, ip + |c.bytes|, h, h + 1, Pop);
      var at := ip + |c.bytes| + Length(Pop);
      var D := EachHeights(code, at, es[1..], c.pool, nested, h);
      Append(code, C, D, ip, at, at + |d.bytes|, h, h, h);
      H := C + D;
    }
  }

  lemma {:induction false} BlockHeights(code: seq<Byte>, ip: nat, body: seq<Stmt>, pool: seq<Value>, nested: bool, h: nat)
    returns (H: Heights)
    requires Sits(code, ip, CompileBlock(body, pool, nested))
    ensures Segment(code, H, ip, ip + |CompileBlock(body, pool, nested).bytes|, h, h)
    decreases body, 0
  {
    hide Checked, OnBoundary, Encode, At, Segment, CompileStmt, Then;
    if body == [] {
      H := Nothing(code, ip, h);
    } else {
      var c := CompileStmt(body[0], pool, nested);
      var d := CompileBlock(body[1..], c.pool, nested);
      ThenLayout(code, ip, c, d);
      var C := StmtHeights(code, ip, body[0], pool, nested, h);
      var D := BlockHeights(code, ip + |c.bytes|, body[1..], c.pool, nested, h);
      Append(code, C, D, ip, ip + |c.bytes|, ip + |c.bytes| + |d.bytes|, h, h, h);
      H := C + D;
    }
  }

  lemma {:induction false} PassHeights(code: seq<Byte>, ip: nat, body: seq<Stmt>, increment: seq<Expr>, pool: seq<Value>,
                                       nested: bool, h: nat)
    returns (H: Heights)
    requires Sits(code, ip, PassCode(body, increment, pool, nested))
    ensures Segment(code, H, ip, ip + |PassCode(body, increment, pool, nested).bytes|, h, h)
    decreases body, 1
  {
    hide Checked, OnBoundary, Encode, At, Segment, CompileBlock, CompileEach, Then;
    var c := CompileBlock(body, pool, nested);
    var d := CompileEach(increment, c.pool, nested);
    ThenLayout(code, ip, c, d);
    var C := BlockHeights(code, ip, body, pool, nested, h);
    var D := EachHeights(code, ip + |c.bytes|, increment, c.pool, nested, h);
    Append(code, C, D, ip, ip + |c.bytes|, ip + |c.bytes| + |d.bytes|, h, h, h);
    H := C + D;
  }

  lemma ForeachStoreHeights(code: seq<Byte>, ip: nat, name: string, pool: seq<Value>, h: nat) returns (H: Heights)
    requires Sits(code, ip, Plus(CheckedStoreCode(name, pool), Pop)) && h >= 1
    ensures Segment(code, H, ip, ip + |Plus(CheckedStoreCode(name, pool), Pop).bytes|, h, h - 1)
  {
    hide Segment, At, Encode, Plus;
    var c := CheckedStoreCode(name, pool);
    PlusLayout(code, ip, c, Pop);
    H := One(code, ip, StoreGlobal(ConstantOperand(pool, Text(name))), h);
    H := AppendOne(code, H, ip, ip + |c.bytes|, h, h, Pop);
  }

  lemma BindHeights(code: seq<Byte>, ip: nat, index: Option<string>, value: string, pool: seq<Value>, h: nat) returns (H: Heights)
    requires Sits(code, ip, BindCode(index, value, pool)) && h >= 2
    ensures Segment(code, H, ip, ip + |BindCode(index, value, pool).bytes|, h, h - 2)
  {
    hide Segment, At, Encode, Plus, Then, CheckedStoreCode, Checked, OnBoundary;
    var v := Plus(CheckedStoreCode(value, pool), Pop);
    var k := KeyCode(index, v.pool);
    ThenLayout(code, ip, v, k);
    var V := ForeachStoreHeights(code, ip, value, pool, h);
    var K;
    match index {
      case None => K := One(code, ip + |v.bytes|, Pop, h - 1);
      case Some(name) => K := ForeachStoreHeights(code, ip + |v.bytes|, name, v.pool, h - 1);
    }
    Append(code, V, K, ip, ip + |v.bytes|, ip + |v.bytes| + |k.bytes|, h, h - 1, h - 2);
    H := V + K;
  }

  /** Every statement keeps the height. */
  lemma {:induction false} StmtHeights(code: seq<Byte>, ip: nat, s: Stmt, pool: seq<Value>, nested: bool, h: nat)
    returns (H: Heights)
    requires Sits(code, ip, CompileStmt(s, pool, nested))
    ensures Segment(code, H, ip, ip + |CompileStmt(s, pool, nested).bytes|, h, h)
    decreases s, 3
  {
    hide Checked, OnBoundary, Encode, At, Segment, CompileStmt, CompileExpr, CompileBlock, CompileEach, PassCode,
      Then, Plus, Branch, LoopBlock, EndlessBlock, ForeachBlock, ForeachBody, PushConstantCode;
    StmtCode(s, pool, nested);
    match s
    case ExprStmt(e) =>
      var c := CompileExpr(e, pool, nested);
      PlusLayout(code, ip, c, Pop);
      H := ExprHeights(code, ip, e, pool, nested, h);
      H := AppendOne(code, H, ip, ip + |c.bytes|, h, h + 1, Pop);
    case Empty => H := One(code, ip, Nop, h);
    case If(cond, thenBody, elseBody) =>
      var c := CompileExpr(cond, pool, nested);
      var t := CompileBlock(thenBody, c.pool, nested);
      var f := CompileBlock(elseBody, t.pool, nested);
      BranchLayout(code, ip, c, t, f);
      var a := ip + |c.bytes|;
      var b := a + 4 + |t.bytes|;
      var C := ExprHeights(code, ip, cond, pool, nested, h);
      var T := BlockHeights(code, a + 4, thenBody, c.pool, nested, h);
      var F := BlockHeights(code, b + 4, elseBody, t.pool, nested, h);
      H := BranchSegment(code, C, T, F, ip, a, b, b + 4 + |f.bytes|, h, h);
    case While(cond, body) =>
      var c := CompileExpr(cond, pool, nested);
      var b := CompileBlock(body, c.pool, nested);
      LoopLayout(code, ip, c, b);
      var a := ip + |c.bytes|;
      var C := ExprHeights(code, ip, cond, pool, nested, h);
      var B := BlockHeights(code, a + 4, body, c.pool, nested, h);
      H := LoopSegment(code, C, B, ip, a, a + 4 + |b.bytes|, h);
    case For(_, _, _, _) => H := ForHeights(code, ip, s, pool, nested, h);
    case Forever(_, _, _) => H := ForHeights(code, ip, s, pool, nested, h);
    case Foreach(_, _, _, _) => H := ForeachHeights(code, ip, s, pool, nested, h);
  }

  lemma {:induction false} ForHeights(code: seq<Byte>, ip: nat, s: Stmt, pool: seq<Value>, nested: bool, h: nat)
    returns (H: Heights)
    requires s.For? || s.Forever?
    requires Sits(code, ip, CompileStmt(s, pool, nested))
    ensures Segment(code, H, ip, ip + |CompileStmt(s, pool, nested).bytes|, h, h)
    decreases s, 2
  {
    hide Checked, OnBoundary, Encode, At, Segment, CompileStmt, CompileExpr, CompileEach, PassCode,
      Then, Plus, LoopBlock, EndlessBlock;
    StmtCode(s, pool, nested);
    var i := CompileEach(s.init, pool, nested);
    var start := ip + |i.bytes|;
    var I, L, end;
    if s.For? {
      var c := CompileExpr(s.cond, i.pool, nested);
      var b := PassCode(s.body, s.increment, c.pool, nested);
      ThenLayout(code, ip, i, LoopBlock(c, b));
      LoopLayout(code, start, c, b);
      var a := start + |c.bytes|;
      var C := ExprHeights(code, start, s.cond, i.pool, nested, h);
      var B := PassHeights(code, a + 4, s.body, s.increment, c.pool, nested, h);
      L := LoopSegment(code, C, B, start, a, a + 4 + |b.bytes|, h);
      end := a + 8 + |b.bytes|;
    } else {
      var b := PassCode(s.body, s.increment, i.pool, nested);
      ThenLayout(code, ip, i, EndlessBlock(b));
      EndlessLayout(code, start, b);
      var B := PassHeights(code, start, s.body, s.increment, i.pool, nested, h);
      L := EndlessSegment(code, B, start, start + |b.bytes|, h);
      end := start + |b.bytes| + 3;
    }
    I := EachHeights(code, ip, s.init, pool, nested, h);
    Append(code, I, L, ip, start, end, h, h, h);
    H := I + L;
  }

  lemma {:induction false} ForeachHeights(code: seq<Byte>, ip: nat, s: Stmt, pool: seq<Value>, nested: bool, h: nat)
    returns (H: Heights)
    requires s.Foreach?
    requires Sits(code, ip, CompileStmt(s, pool, nested))
    ensures Segment(code, H, ip, ip + |CompileStmt(s, pool, nested).bytes|, h, h)
    decreases s, 2
  {
    hide Checked, OnBoundary, Encode, At, Segment, CompileStmt, CompileExpr, CompileBlock, BindCode,
      Then, Plus, ForeachBlock, PushConstantCode;
    StmtCode(s, pool, nested);
    var g := CompileExpr(s.generator, pool, nested);
    var z := PushConstantCode(g.pool, Int(0));
    var head := Then(g, z);
    var bind := BindCode(s.index, s.value, head.pool);
    var body := CompileBlock(s.body, bind.pool, nested);
    var b := Then(bind, body);
    assert b == ForeachBody(s.index, s.value, s.body, head.pool, nested);
    ThenLayout(code, ip, head, ForeachBlock(s.index.None?, b));
    ThenLayout(code, ip, g, z);
    var start := ip + |head.bytes|;
    ForeachLayout(code, start, s.index.None?, b);
    ThenLayout(code, start + 3, bind, body);
    var G := ExprHeights(code, ip, s.generator, pool, nested, h);
    G := PushZeroHeights(code, G, ip, ip + |g.bytes|, g.pool, h);
    var V := BindHeights(code, start + 3, s.index, s.value, head.pool, h + 4);
    var at := start + 3 + |bind.bytes|;
    var B := BlockHeights(code, at, s.body, bind.pool, nested, h + 2);
    Append(code, V, B, start + 3, at, at + |body.bytes|, h + 4, h + 2, h + 2);
    var L := ForeachSegment(code, V + B, start, at + |body.bytes|, h, ForeachInstr(s.index.None?, |b.bytes| + 3));
    Append(code, G, L, ip, start, at + |body.bytes| + 5, h, h + 2, h);
    H := G + L;
  }

  lemma PushZeroHeights(code: seq<Byte>, G: Heights, ip: nat, at: nat, pool: seq<Value>, h: nat) returns (H: Heights)
    requires Segment(code, G, ip, at, h, h + 1) && Sits(code, at, PushConstantCode(pool, Int(0)))
    ensures Segment(code, H, ip, at + |PushConstantCode(pool, Int(0)).bytes|, h, h + 2)
  {
    hide Segment, At, Encode;
    H := AppendOne(code, G, ip, at, h, h + 1, PushConst(ConstantOperand(pool, Int(0))));
  }

  // ----- whole bodies and all their runs -----

  /** A compiled body up to its final RETURN: one height per boundary, 0 at the start
      and the result alone at the RETURN. */
  lemma BodyHeights(body: seq<Stmt>, nested: bool) returns (H: Heights)
    requires CompileBody(body, nested).ok
    ensures var code := CompileBody(body, nested).bytes;
            |code| > 0 && Segment(code, H, 0, |code| - 1, 0, 1) && At(code, |code| - 1, Encode(Return))
  {
    hide Segment, Encode, CompileBlock, Plus;
    var code := CompileBody(body, nested).bytes;
    var c := CompileBlock(body, [], nested);
    assert code[0..0 + |code|] == code;
    BodyLayout(code, 0, c);
    BodySize(c);
    H := BlockHeights(code, 0, body, [], nested, 0);
    H := AppendOne(code, H, 0, |c.bytes|, 0, 0, PushNull);
  }

  lemma BodySize(c: Code)
    ensures |Plus(Plus(c, PushNull), Return).bytes| == |c.bytes| + 2 && Length(PushNull) == 1
  {
  }

  /** A machine that agrees with the heights. */
  ghost predicate Agrees(H: Heights, below: seq<Value>, m: Machine) {
    && m.base == |below| && HasFrame(m) && m.stack[..m.base] == below
    && m.ip in H && |Temps(m)| == H[m.ip]
  }

  /** An instruction with enough operands changes their number by what Fall and
      Displacement say. */
  lemma ApplyHeight(p: Program, i: Instr, st: Store, temps: seq<Value>)
    requires Pops(i) <= |temps|
    ensures match Apply(p, i, st, temps)
            case Fault => true
            case Leave(_, _) => i.Return?
            case Continue(_, temps', jump) =>
              || (jump == 0 && Fall(i, |temps|).Some? && |temps'| == Fall(i, |temps|).value)
              || (Displacement(i) == Some(jump) && |temps'| == |temps|)
  {
    hide BinaryResult, NegateResult, StepResult, IsFalsy, LoadScoped, SetScoped, ConstantName, SlotName, ReversedSeq,
      ApplyPredicate, ApplyForeach;
    if i.BinaryPredicate? {
      PredicateHeight(p, i.index, false, st, temps);
    } else if i.NegatedBinaryPredicate? {
      PredicateHeight(p, i.index, true, st, temps);
    } else if i.ForeachNext? {
      ForeachHeight(p, i.offset, false, st, temps);
    } else if i.ForeachNextValue? {
      ForeachHeight(p, i.offset, true, st, temps);
    }
  }

  lemma PredicateHeight(p: Program, index: Short, negate: bool, st: Store, temps: seq<Value>)
    requires |temps| >= 2
    ensures var e := ApplyPredicate(p, index, negate, st, temps);
            e.Fault? || (e.Continue? && e.jump == 0 && |e.temps| == |temps| - 1)
  {
  }

  lemma ForeachHeight(p: Program, offset: Short, valueOnly: bool, st: Store, temps: seq<Value>)
    requires |temps| >= 2
    ensures var e := ApplyForeach(p, offset, valueOnly, st, temps);
            e.Continue? && ((e.jump == offset && |e.temps| == |temps|) || (e.jump == 0 && |e.temps| == |temps| + 2))
  {
  }

  /** In an agreeing machine the instruction at `ip` finds its operands. */
  lemma StepFits(p: Program, H: Heights, below: seq<Value>, m: Machine)
    requires |p.code| > 0 && Segment(p.code, H, 0, |p.code| - 1, 0, 1) && At(p.code, |p.code| - 1, Encode(Return))
    requires Agrees(H, below, m)
    ensures m.ip < |p.code| && OnBoundary(p.code, 0, m.ip)
    ensures Decode(p.code, m.ip).Some? && Pops(Decode(p.code, m.ip).value) <= |Temps(m)|
    ensures m.ip < |p.code| - 1 ==> Checked(p.code, H, m.ip)
    ensures m.ip == |p.code| - 1 ==> Decode(p.code, m.ip) == Some(Return)
  {
    hide Decode, Encode, Fall, Displacement, OnBoundary, Pops;
    DecodeEncode(p.code, |p.code| - 1, Return);
    ReturnPops();
  }

  lemma ReturnPops()
    ensures Pops(Return) == 1
  {
  }

  lemma NextAgrees(p: Program, H: Heights, below: seq<Value>, i: Instr, m: Machine)
    requires m.ip in H && Checked(p.code, H, m.ip) && Decode(p.code, m.ip) == Some(i) && Agrees(H, below, m)
    requires Pops(i) <= |Temps(m)| && !i.Return?
    ensures var o := After(m.ip + Length(i), below, Apply(p, i, StoreOf(m), Temps(m)));
            o.Running? ==> Agrees(H, below, o.m)
  {
    hide Decode, Encode, Apply, Fall, Displacement, Length, Pops;
    ApplyHeight(p, i, StoreOf(m), Temps(m));
    match Apply(p, i, StoreOf(m), Temps(m))
    case Continue(st, temps, jump) =>
      var ip := m.ip + Length(i) + jump;
      if ip >= 0 { ConfigView(ip, below, st, temps); }
    case _ =>
  }

  /** One step keeps the agreement, and never fails for want of operands or of an
      instruction. */
  lemma StepAgrees(p: Program, H: Heights, below: seq<Value>, m: Machine)
    requires |p.code| > 0 && Segment(p.code, H, 0, |p.code| - 1, 0, 1) && At(p.code, |p.code| - 1, Encode(Return))
    requires Agrees(H, below, m)
    ensures Decode(p.code, m.ip).Some? && Pops(Decode(p.code, m.ip).value) <= |Temps(m)|
    ensures Step(p, m).Running? ==> Agrees(H, below, Step(p, m).m)
  {
    hide Decode, Encode, Apply, Segment, OnBoundary, Checked, Pops, Length;
    StepFits(p, H, below, m);
    var i := Decode(p.code, m.ip).value;
    ReturnLeaves(p, StoreOf(m), Temps(m));
    if m.ip < |p.code| - 1 && !i.Return? {
      NextAgrees(p, H, below, i, m);
    }
  }

  lemma ReturnLeaves(p: Program, st: Store, temps: seq<Value>)
    ensures Pops(Return) == 1 && (|temps| >= 1 ==> Apply(p, Return, st, temps).Leave?)
  {
  }

  lemma {:induction false} RunAgrees(p: Program, H: Heights, below: seq<Value>, m: Machine, n: nat)
    requires |p.code| > 0 && Segment(p.code, H, 0, |p.code| - 1, 0, 1) && At(p.code, |p.code| - 1, Encode(Return))
    requires Agrees(H, below, m) && Run(p, m, n).Running?
    ensures Agrees(H, below, Run(p, m, n).m)
    decreases n
  {
    hide Decode, Encode, Apply, Segment, Agrees, Step;
    if n > 0 {
      StepAgrees(p, H, below, m);
      RunAgrees(p, H, below, Step(p, m).m, n - 1);
    }
  }

  /** The program a compiled body makes with some environment. */
  function ProgramOf(body: seq<Stmt>, nested: bool, env: Env): Program {
    Program(CompileBody(body, nested).bytes, CompileBody(body, nested).pool, env)
  }

  /** `m` is the machine after `n` steps of the compiled body, entered with store `st`
      on a stack whose lower part is `below`. */
  ghost predicate Reached(body: seq<Stmt>, nested: bool, env: Env, below: seq<Value>, st: Store, n: nat, m: Machine) {
    Run(ProgramOf(body, nested, env), Config(0, below, st, []), n) == Running(m)
  }

  lemma ReachedAgrees(body: seq<Stmt>, nested: bool, env: Env, below: seq<Value>, st: Store, n: nat, m: Machine, H: Heights)
    requires CompileBody(body, nested).ok && Reached(body, nested, env, below, st, n, m)
    requires var code := CompileBody(body, nested).bytes;
             |code| > 0 && Segment(code, H, 0, |code| - 1, 0, 1) && At(code, |code| - 1, Encode(Return))
    ensures Agrees(H, below, m)
  {
    hide Decode, Encode, Apply, Step, Run, CompileBody;
    ConfigView(0, below, st, []);
    RunAgrees(ProgramOf(body, nested, env), H, below, Config(0, below, st, []), n);
  }

  /** In every reachable machine the instruction pointer stands on an instruction of
      the compiled body, that instruction finds all its operands above the fixed
      slots, and everything below the frame is as it was on entry. */
  lemma NeverReachesSlots(body: seq<Stmt>, nested: bool, env: Env, below: seq<Value>, st: Store, n: nat, m: Machine)
    requires CompileBody(body, nested).ok && Reached(body, nested, env, below, st, n, m)
    ensures var code := CompileBody(body, nested).bytes;
            && m.ip < |code| && OnBoundary(code, 0, m.ip)
            && m.base == |below| && HasFrame(m) && m.stack[..m.base] == below
            && Decode(code, m.ip).Some?
            && Pops(Decode(code, m.ip).value) <= |Temps(m)|
  {
    var H := BodyHeights(body, nested);
    ReachedAgrees(body, nested, env, below, st, n, m, H);
    hide Decode, Encode, Apply, Step, Run, CompileBody, OnBoundary;
    StepFits(ProgramOf(body, nested, env), H, below, m);
  }

  /** The operand height is a function of the instruction pointer alone: whatever the
      environments, the stores and the paths, two runs of the same body that stand at
      the same instruction have equally many operands. */
  lemma StaticHeight(body: seq<Stmt>, nested: bool, env: Env, below: seq<Value>, st: Store, n: nat, m: Machine,
                     env': Env, below': seq<Value>, st': Store, n': nat, m': Machine)
    requires CompileBody(body, nested).ok
    requires Reached(body, nested, env, below, st, n, m) && Reached(body, nested, env', below', st', n', m')
    requires m.ip == m'.ip
    ensures HasFrame(m) && HasFrame(m') && |Temps(m)| == |Temps(m')|
  {
    hide Decode, Encode, Apply, Step, Run, CompileBody, OnBoundary, Segment, Reached;
    var H := BodyHeights(body, nested);
    ReachedAgrees(body, nested, env, below, st, n, m, H);
    ReachedAgrees(body, nested, env', below', st', n', m', H);
  }
}
