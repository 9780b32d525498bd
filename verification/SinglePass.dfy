/** The single-pass compiler itself: it appends bytes to a chunk, leaves holes for
    forward jumps and patches them when the target is known. Each method is proved to
    produce the code that Codegen describes, and to report an error exactly when
    Codegen does. */
module SinglePass {
  import opened Values
  import opened Instructions
  import opened Syntax
  import Codegen
  import opened Unfolding

  type Code = Codegen.Code

  class Chunk {
    var code: seq<Byte>
    var constants: seq<Value>

    constructor ()
      ensures code == [] && constants == []
    {
      code, constants := [], [];
    }

    method Write(byte: Byte)
      modifies this`code
      ensures code == old(code) + [byte]
    {
      code := code + [byte];
    }

    /** Returns the index of the first equal constant, appending when there is none. */
    method AddConstant(v: Value) returns (index: nat)
      modifies this`constants
      ensures index == Codegen.FindConstant(old(constants), v)
      ensures constants == Codegen.WithConstant(old(constants), v)
    {
      index := 0;
      while index < |constants|
        invariant index <= |constants|
        invariant Codegen.FindConstant(constants, v) == index + Codegen.FindConstant(constants[index..], v)
      {
        if Codegen.ConstantsEqual(constants[index], v) {
          return;
        }
        assert constants[index..][1..] == constants[index + 1..];
        index := index + 1;
      }
      constants := constants + [v];
    }
  }

  /** What the compiler has produced so far. */
  datatype Progress = Progress(code: seq<Byte>, pool: seq<Value>, error: bool)

  /** From `before` to `after` the code `c` was appended; once an error is reported
      the content no longer matters. */
  ghost predicate Grew(before: Progress, after: Progress, c: Code) {
    && after.error == (before.error || !c.ok)
    && (!after.error ==> after.code == before.code + c.bytes && after.pool == c.pool)
    && |before.code| <= |after.code|
  }

  /** Two stretches of work; `b` was compiled with the pool the first one left. */
  lemma GrewThen(s0: Progress, s1: Progress, s2: Progress, a: Code, actual: Code, b: Code)
    requires Grew(s0, s1, a) && Grew(s1, s2, actual)
    requires !s1.error ==> actual == b
    ensures Grew(s0, s2, Codegen.Then(a, b))
  {
    assert s0.code + a.bytes + b.bytes == s0.code + (a.bytes + b.bytes);
  }

  lemma GrewPlus(s0: Progress, s1: Progress, a: Code, i: Instr)
    requires Grew(s0, s1, a)
    ensures Grew(s0, s1.(code := s1.code + Encode(i)), Codegen.Plus(a, i))
  {
    assert s0.code + a.bytes + Encode(i) == s0.code + (a.bytes + Encode(i));
  }

  lemma ThenThen(a: Code, b: Code, c: Code)
    ensures Codegen.Then(Codegen.Then(a, b), c) == Codegen.Then(a, Codegen.Then(b, c))
  {
    assert a.bytes + b.bytes + c.bytes == a.bytes + (b.bytes + c.bytes);
  }

  lemma ThenNothing(pool: seq<Value>, a: Code)
    ensures Codegen.Then(a, Code.Code([], a.pool, true)) == a
    ensures Codegen.Then(Code.Code([], pool, true), a) == a
  {
    assert a.bytes + [] == a.bytes && [] + a.bytes == a.bytes;
  }

  // ----- holes -----

  /** The code with the distance written into the hole at `offset`. */
  function Filled(code: seq<Byte>, offset: nat, distance: Short): (r: seq<Byte>)
    requires offset + 2 <= |code|
    ensures |r| == |code|
  {
    code[offset := High(distance)][offset + 1 := Low(distance)]
  }

  /** Filling the hole behind `before` with the length of what follows it. */
  lemma FilledBehind(before: seq<Byte>, opcode: Byte, rest: seq<Byte>)
    requires |rest| <= Codegen.SHORT_MAX
    ensures Filled(before + [opcode, 0xFF, 0xFF] + rest, |before| + 1, |rest|)
         == before + WithShort(opcode, |rest|) + rest
  {
  }

  /** `s1` ends in a jump whose hole is filled once `second` is there. */
  lemma GrewOver(s0: Progress, s1: Progress, s2: Progress, a: Code, opcode: Byte, actual: Code, b: Code)
    requires Grew(s0, s1, a)
    requires Grew(s1.(code := s1.code + [opcode, 0xFF, 0xFF]), s2, actual)
    requires !s1.error ==> actual == b
    requires !s2.error && |b.bytes| <= Codegen.SHORT_MAX
    ensures |s1.code| + 3 + |b.bytes| == |s2.code|
    ensures Filled(s2.code, |s1.code| + 1, |b.bytes|) == s0.code + (a.bytes + WithShort(opcode, |b.bytes|) + b.bytes)
  {
    FilledBehind(s1.code, opcode, b.bytes);
    assert s1.code + WithShort(opcode, |b.bytes|) + b.bytes
        == s0.code + (a.bytes + WithShort(opcode, |b.bytes|) + b.bytes);
  }

  lemma ThenPool(a: Code, b: Code)
    ensures Codegen.Then(a, b).pool == b.pool
  {
  }

  lemma GrewPool(s0: Progress, s1: Progress, c: Code)
    requires Grew(s0, s1, c)
    ensures !s1.error ==> s1.pool == c.pool
  {
  }

  lemma GrewError(s0: Progress, s1: Progress, c: Code)
    requires Grew(s0, s1, c)
    ensures s0.error ==> s1.error
  {
  }

  lemma GrewLonger(s0: Progress, s1: Progress, c: Code)
    requires Grew(s0, s1, c)
    ensures |s0.code| <= |s1.code|
  {
  }

  lemma GrewNothing(s: Progress)
    ensures Grew(s, s, Code.Code([], s.pool, true))
  {
  }

  /** A short circuit whose jump has been patched, or could not be. */
  lemma LogicalGrew(s0: Progress, s1: Progress, s2: Progress, s3: Progress, l: Code, opcode: Byte, actual: Code, r: Code)
    requires Grew(s0, s1, l)
    requires Grew(s1.(code := s1.code + [opcode, 0xFF, 0xFF]), s2, actual)
    requires !s1.error ==> actual == r
    requires var distance := |s2.code| - (|s1.code| + 1) - 2;
             s3 == if distance > Codegen.SHORT_MAX then s2.(error := true)
                   else s2.(code := Filled(s2.code, |s1.code| + 1, distance))
    ensures Grew(s0, s3, JumpOver(l, opcode, r))
  {
    if !s2.error && |r.bytes| <= Codegen.SHORT_MAX {
      GrewOver(s0, s1, s2, l, opcode, actual, r);
    }
  }

  lemma ShortCircuitJump(l: Code, r: Code)
    ensures Codegen.ShortCircuit(l, true, r) == JumpOver(l, OP_AND, r)
    ensures Codegen.ShortCircuit(l, false, r) == JumpOver(l, OP_OR, r)
  {
  }

  /** ShortCircuit with its jump spelled out as opcode and operand. */
  function JumpOver(l: Code, opcode: Byte, r: Code): Code {
    Code.Code(l.bytes + WithShort(opcode, Codegen.JumpOperand(|r.bytes|)) + r.bytes, r.pool,
              l.ok && r.ok && |r.bytes| <= Codegen.SHORT_MAX)
  }

  lemma JumpBytes(distance: Short)
    ensures Encode(JumpIfFalse(distance)) == WithShort(OP_JUMP_IF_FALSE, distance)
    ensures Encode(Jump(distance)) == WithShort(OP_JUMP, distance)
    ensures Encode(ForeachNext(distance)) == WithShort(OP_FOREACH_NEXT, distance)
    ensures Encode(ForeachNextValue(distance)) == WithShort(OP_FOREACH_NEXT_VALUE, distance)
    ensures Encode(Pop) == [OP_POP] && |Encode(Loop(distance))| == 3
  {
  }

  /** A two-way branch. `s1` follows the condition, `s3` the first branch, `s4` the
      POP behind the patched first jump, `s5` the second branch; the second jump is
      patched last. */
  lemma BranchGrew(s0: Progress, s1: Progress, s3: Progress, s4: Progress, s5: Progress, s6: Progress,
                   c: Code, actualFirst: Code, first: Code, actualSecond: Code, second: Code)
    requires Grew(s0, s1, c)
    requires Grew(s1.(code := s1.code + [OP_JUMP_IF_FALSE, 0xFF, 0xFF] + [OP_POP]), s3, actualFirst)
    requires !s1.error ==> actualFirst == first
    requires var open := s3.code + [OP_JUMP, 0xFF, 0xFF];
             var distance := |open| - (|s1.code| + 1) - 2;
             s4 == if distance > Codegen.SHORT_MAX then s3.(code := open + [OP_POP], error := true)
                   else s3.(code := Filled(open, |s1.code| + 1, distance) + [OP_POP])
    requires Grew(s4, s5, actualSecond)
    requires !s4.error ==> actualSecond == second
    requires var distance := |s5.code| - (|s3.code| + 1) - 2;
             s6 == if distance > Codegen.SHORT_MAX then s5.(error := true)
                   else s5.(code := Filled(s5.code, |s3.code| + 1, distance))
    ensures Grew(s0, s6, Codegen.Branch(c, first, second))
  {
    hide Encode, Filled;
    if !s3.error && |first.bytes| + 4 <= Codegen.SHORT_MAX {
      BranchOpen(s0.code, c.bytes, first.bytes, s1.code, s3.code);
      if !s5.error && |second.bytes| + 1 <= Codegen.SHORT_MAX {
        BranchClosed(s0.code, c, first, second, s3.code, s4.code, s5.code);
      }
    }
  }

  lemma BranchOpen(s0: seq<Byte>, c: seq<Byte>, first: seq<Byte>, s1: seq<Byte>, s3: seq<Byte>)
    requires s1 == s0 + c && s3 == s1 + [OP_JUMP_IF_FALSE, 0xFF, 0xFF] + [OP_POP] + first
    requires |first| + 4 <= Codegen.SHORT_MAX
    ensures Filled(s3 + [OP_JUMP, 0xFF, 0xFF], |s1| + 1, |first| + 4)
         == s0 + (c + Encode(JumpIfFalse(|first| + 4)) + Encode(Pop) + first) + [OP_JUMP, 0xFF, 0xFF]
  {
    hide Encode, Filled, WithShort;
    JumpBytes(|first| + 4);
    var rest := [OP_POP] + first + [OP_JUMP, 0xFF, 0xFF];
    assert s3 + [OP_JUMP, 0xFF, 0xFF] == s1 + [OP_JUMP_IF_FALSE, 0xFF, 0xFF] + rest;
    FilledBehind(s1, OP_JUMP_IF_FALSE, rest);
    var test := WithShort(OP_JUMP_IF_FALSE, |first| + 4);
    assert s1 + test + rest == s0 + (c + test + [OP_POP] + first) + [OP_JUMP, 0xFF, 0xFF];
  }

  lemma BranchClosed(s0: seq<Byte>, c: Code, first: Code, second: Code, s3: seq<Byte>, s4: seq<Byte>, s5: seq<Byte>)
    requires |first.bytes| + 4 <= Codegen.SHORT_MAX && |second.bytes| + 1 <= Codegen.SHORT_MAX
    requires var head := s0 + (c.bytes + Encode(JumpIfFalse(|first.bytes| + 4)) + Encode(Pop) + first.bytes);
             |s3| == |head| && s4 == head + [OP_JUMP, 0xFF, 0xFF] + [OP_POP] && s5 == s4 + second.bytes
    ensures |s5| - (|s3| + 1) - 2 == |second.bytes| + 1
    ensures Filled(s5, |s3| + 1, |second.bytes| + 1) == s0 + Codegen.Branch(c, first, second).bytes
  {
    hide Encode, Filled, WithShort;
    JumpBytes(|first.bytes| + 4);
    JumpBytes(|second.bytes| + 1);
    var head := s0 + (c.bytes + Encode(JumpIfFalse(|first.bytes| + 4)) + Encode(Pop) + first.bytes);
    var rest := [OP_POP] + second.bytes;
    assert s5 == head + [OP_JUMP, 0xFF, 0xFF] + rest;
    FilledBehind(head, OP_JUMP, rest);
    var body := c.bytes + Encode(JumpIfFalse(|first.bytes| + 4)) + Encode(Pop) + first.bytes;
    var jump := WithShort(OP_JUMP, |second.bytes| + 1);
    assert Codegen.Branch(c, first, second).bytes == body + jump + [OP_POP] + second.bytes;
    assert head + jump + rest == s0 + (body + jump + [OP_POP] + second.bytes);
  }

  lemma CallBytes(count: Byte, index: Short)
    ensures Encode(Reverse(count)) == [OP_REVERSE, count]
    ensures Encode(CallNamed(count, index)) == [OP_CALL_NAMED, count] + [High(index), Low(index)]
  {
  }

  lemma PopByte()
    ensures Encode(Pop) == [OP_POP]
  {
  }

  lemma ReturnBytes()
    ensures Encode(PushNull) == [OP_PUSH_NULL] && Encode(Return) == [OP_RETURN]
  {
  }

  lemma PopGrew(s: Progress)
    ensures Grew(s, s.(code := s.code + [OP_POP]), Codegen.Single(Pop, s.pool))
  {
  }

  /** `s1` follows the condition, `s3` the loop body; then the jump back, the patched
      exit and POP. */
  lemma LoopGrew(s0: Progress, s1: Progress, s3: Progress, s4: Progress, c: Code, actual: Code, b: Code)
    requires Grew(s0, s1, c)
    requires Grew(s1.(code := s1.code + [OP_JUMP_IF_FALSE, 0xFF, 0xFF] + [OP_POP]), s3, actual)
    requires !s1.error ==> actual == b
    requires |s0.code| <= |s3.code|
    requires var back := |s3.code| + 3 - |s0.code|;
             var open := if back > Codegen.LOOP_MAX then s3.code + [OP_LOOP] else s3.code + Encode(Loop(back));
             var forward := |open| - (|s1.code| + 1) - 2;
             s4 == if forward > Codegen.SHORT_MAX then s3.(code := open + [OP_POP], error := true)
                   else Progress(Filled(open, |s1.code| + 1, forward) + [OP_POP], s3.pool,
                                 s3.error || back > Codegen.LOOP_MAX)
    ensures Grew(s0, s4, Codegen.LoopBlock(c, b))
  {
    hide Encode, Filled;
    JumpBytes(0);
    LoopLength(if |s3.code| + 3 - |s0.code| <= Codegen.LOOP_MAX then |s3.code| + 3 - |s0.code| else 0);
    if !s3.error && |c.bytes| + |b.bytes| + 7 <= Codegen.LOOP_MAX {
      LoopClosed(s0.code, c, b, s1.code, s3.code);
    }
  }

  lemma LoopLength(distance: Short)
    ensures |Encode(Loop(distance))| == 3
  {
  }

  lemma LoopClosed(s0: seq<Byte>, c: Code, b: Code, s1: seq<Byte>, s3: seq<Byte>)
    requires s1 == s0 + c.bytes && s3 == s1 + [OP_JUMP_IF_FALSE, 0xFF, 0xFF] + [OP_POP] + b.bytes
    requires |c.bytes| + |b.bytes| + 7 <= Codegen.LOOP_MAX
    ensures Filled(s3 + Encode(Loop(|c.bytes| + |b.bytes| + 7)), |s1| + 1, |b.bytes| + 4) + [OP_POP]
         == s0 + Codegen.LoopBlock(c, b).bytes
  {
    hide Encode, Filled, WithShort;
    JumpBytes(|b.bytes| + 4);
    LoopLength(|c.bytes| + |b.bytes| + 7);
    var loop := Encode(Loop(|c.bytes| + |b.bytes| + 7));
    var rest := [OP_POP] + b.bytes + loop;
    assert s3 + loop == s1 + [OP_JUMP_IF_FALSE, 0xFF, 0xFF] + rest;
    FilledBehind(s1, OP_JUMP_IF_FALSE, rest);
    var test := WithShort(OP_JUMP_IF_FALSE, |b.bytes| + 4);
    assert Codegen.LoopBlock(c, b).bytes == c.bytes + test + [OP_POP] + b.bytes + loop + [OP_POP];
    assert s1 + test + rest + [OP_POP] == s0 + (c.bytes + test + [OP_POP] + b.bytes + loop + [OP_POP]);
  }

  lemma EndlessGrew(s0: Progress, s1: Progress, s2: Progress, b: Code)
    requires Grew(s0, s1, b) && |s0.code| <= |s1.code|
    requires var back := |s1.code| + 3 - |s0.code|;
             s2 == if back > Codegen.LOOP_MAX then s1.(code := s1.code + [OP_LOOP], error := true)
                   else s1.(code := s1.code + Encode(Loop(back)))
    ensures Grew(s0, s2, Codegen.EndlessBlock(b))
  {
    hide Encode;
    if !s2.error {
      assert s0.code + b.bytes + Encode(Loop(|b.bytes| + 3)) == s0.code + (b.bytes + Encode(Loop(|b.bytes| + 3)));
    }
  }

  /** `s2` follows the loop body behind FOREACH_NEXT and its hole. */
  lemma ForeachGrew(s0: Progress, s2: Progress, s4: Progress, valueOnly: bool, b: Code)
    requires var opcode := if valueOnly then OP_FOREACH_NEXT_VALUE else OP_FOREACH_NEXT;
             Grew(s0.(code := s0.code + [opcode, 0xFF, 0xFF]), s2, b)
    requires var back := |s2.code| + 3 - |s0.code|;
             var open := if back > Codegen.LOOP_MAX then s2.code + [OP_LOOP] else s2.code + Encode(Loop(back));
             var forward := |open| - (|s0.code| + 1) - 2;
             s4 == if forward > Codegen.SHORT_MAX then s2.(code := open + [OP_POP] + [OP_POP], error := true)
                   else Progress(Filled(open, |s0.code| + 1, forward) + [OP_POP] + [OP_POP], s2.pool,
                                 s2.error || back > Codegen.LOOP_MAX)
    ensures Grew(s0, s4, Codegen.ForeachBlock(valueOnly, b))
  {
    hide Encode, Filled;
    LoopLength(if |s2.code| + 3 - |s0.code| <= Codegen.LOOP_MAX then |s2.code| + 3 - |s0.code| else 0);
    if !s2.error && |b.bytes| + 6 <= Codegen.LOOP_MAX {
      ForeachClosed(s0.code, valueOnly, b, s2.code);
    }
  }

  lemma ForeachClosed(s0: seq<Byte>, valueOnly: bool, b: Code, s2: seq<Byte>)
    requires var opcode := if valueOnly then OP_FOREACH_NEXT_VALUE else OP_FOREACH_NEXT;
             s2 == s0 + [opcode, 0xFF, 0xFF] + b.bytes
    requires |b.bytes| + 6 <= Codegen.LOOP_MAX
    ensures Filled(s2 + Encode(Loop(|b.bytes| + 6)), |s0| + 1, |b.bytes| + 3) + [OP_POP] + [OP_POP]
         == s0 + Codegen.ForeachBlock(valueOnly, b).bytes
  {
    hide Encode, Filled, WithShort;
    JumpBytes(|b.bytes| + 3);
    LoopLength(|b.bytes| + 6);
    var opcode := if valueOnly then OP_FOREACH_NEXT_VALUE else OP_FOREACH_NEXT;
    var loop := Encode(Loop(|b.bytes| + 6));
    assert s2 + loop == s0 + [opcode, 0xFF, 0xFF] + (b.bytes + loop);
    FilledBehind(s0, opcode, b.bytes + loop);
    var next := WithShort(opcode, |b.bytes| + 3);
    assert Codegen.ForeachBlock(valueOnly, b).bytes == next + b.bytes + loop + [OP_POP] + [OP_POP];
    assert s0 + next + (b.bytes + loop) + [OP_POP] + [OP_POP] == s0 + (next + b.bytes + loop + [OP_POP] + [OP_POP]);
  }

  class Compiler {
    const chunk: Chunk
    const nested: bool
    var hadError: bool
    var loopStart: int

    constructor (nested: bool)
      ensures this.nested == nested && fresh(chunk) && loopStart == -1
      ensures Now() == Progress([], [], false)
    {
      chunk := new Chunk();
      this.nested := nested;
      hadError := false;
      loopStart := -1;
    }

    ghost function Now(): Progress
      reads this, chunk
    {
      Progress(chunk.code, chunk.constants, hadError)
    }

    // ----- emitting -----

    method EmitByte(byte: Byte)
      modifies chunk`code
      ensures Now() == old(Now()).(code := old(chunk.code) + [byte])
    {
      chunk.Write(byte);
    }

    method EmitShort(value: Short)
      modifies chunk`code
      ensures Now() == old(Now()).(code := old(chunk.code) + [High(value), Low(value)])
    {
      EmitByte(High(value));
      EmitByte(Low(value));
    }

    method CompilerError()
      modifies this`hadError
      ensures hadError
    {
      if !hadError {
        hadError := true;
      }
    }

    method MakeConstant(v: Value) returns (index: Short)
      modifies this`hadError, chunk`constants
      ensures index == Codegen.ConstantOperand(old(chunk.constants), v)
      ensures chunk.constants == Codegen.WithConstant(old(chunk.constants), v)
      ensures hadError == (old(hadError) || !Codegen.ConstantFits(old(chunk.constants), v))
    {
      var i := chunk.AddConstant(v);
      if i > Codegen.SHORT_MAX {
        CompilerError();
        return 0;
      }
      index := i;
    }

    method EmitConstant(v: Value)
      modifies this`hadError, chunk
      ensures Grew(old(Now()), Now(), Codegen.PushConstantCode(old(chunk.constants), v))
    {
      EmitByte(OP_PUSH_CONST);
      var index := MakeConstant(v);
      EmitShort(index);
    }

    /** An opcode with a hole of two bytes; `offset` is where the hole starts. */
    method EmitJump(opcode: Byte) returns (offset: nat)
      modifies chunk`code
      ensures Now() == old(Now()).(code := old(chunk.code) + [opcode, 0xFF, 0xFF])
      ensures offset == |old(chunk.code)| + 1
    {
      EmitByte(opcode);
      EmitByte(0xFF);
      EmitByte(0xFF);
      offset := |chunk.code| - 2;
    }

    /** Fills a hole with the distance from behind it to the end of the code. */
    method PatchJump(offset: nat)
      requires offset + 2 <= |chunk.code|
      modifies this`hadError, chunk`code
      ensures var distance := |old(chunk.code)| - offset - 2;
              Now() == if distance > 0xFFFF then old(Now()).(error := true)
                       else old(Now()).(code := Filled(old(chunk.code), offset, distance))
    {
      var jump := |chunk.code| - offset - 2;
      if jump > Codegen.SHORT_MAX {
        CompilerError();
        return;
      }
      chunk.code := chunk.code[offset := High(jump)];
      chunk.code := chunk.code[offset + 1 := Low(jump)];
    }

    /** A jump back to `start`; too long a distance leaves only the opcode. */
    method EmitLoop(start: nat)
      requires start <= |chunk.code|
      modifies this`hadError, chunk`code
      ensures var distance := |old(chunk.code)| + 3 - start;
              Now() == if distance > 0x7FFF
                       then old(Now()).(code := old(chunk.code) + [OP_LOOP], error := true)
                       else old(Now()).(code := old(chunk.code) + Encode(Loop(distance)))
    {
      EmitByte(OP_LOOP);
      var offset := |chunk.code| - start + 2;
      if offset > Codegen.LOOP_MAX {
        CompilerError();
        return;
      }
      EmitByte(High(offset));
      EmitByte(Low(offset));
    }

    // ----- variables -----

    method NamedVariable(name: string, assign: bool)
      modifies this`hadError, chunk
      ensures Grew(old(Now()), Now(),
                   if assign then Codegen.StoreCode(name, old(chunk.constants), nested)
                   else Codegen.LoadCode(name, old(chunk.constants), nested))
    {
      var slot := Codegen.SlotOf(name, nested);
      if slot.Some? {
        if slot.value < 8 {
          EmitByte((if assign then OP_STORE_LOCAL_0 else OP_LOAD_LOCAL_0) + slot.value);
        } else {
          EmitByte(if assign then OP_STORE_LOCAL else OP_LOAD_LOCAL);
          EmitByte(slot.value);
        }
      } else {
        var index := chunk.AddConstant(Text(name));
        EmitByte(if assign then OP_STORE_GLOBAL else OP_LOAD_GLOBAL);
        EmitShort(index % 0x1_0000);
      }
    }

    method ReferenceVariable(name: string)
      modifies this`hadError, chunk
      ensures Grew(old(Now()), Now(), Codegen.ReferenceCode(name, old(chunk.constants), nested))
    {
      var slot := Codegen.SlotOf(name, nested);
      if slot.Some? {
        EmitByte(OP_REFERENCE_LOCAL);
        EmitByte(slot.value);
        return;
      }
      var constant := MakeConstant(Text(name));
      EmitByte(OP_REFERENCE_GLOBAL);
      EmitShort(constant);
    }

    // ----- expressions -----

    method CompileExpr(e: Expr)
      modifies this, chunk
      ensures Grew(old(Now()), Now(), Codegen.CompileExpr(e, old(chunk.constants), nested))
      ensures loopStart == old(loopStart)
      decreases e, 2
    {
      hide Codegen.CompileExpr, Grew;
      match e
      case Binop(_, _, _) => CompileBinop(e);
      case Bridge(_, _, _, _) => CompileBridge(e);
      case And(left, right) => CompileLogical(e, left, right, OP_AND);
      case Or(left, right) => CompileLogical(e, left, right, OP_OR);
      case Not(operand) => CompileUnary(e, operand, OP_NOT);
      case Minus(operand) => CompileUnary(e, operand, OP_NEGATE);
      case Iff(args) => if |args| == 0 { CompileLeaf(e); } else { CompileIff(e); }
      case Assign(_, _) => CompileAssign(e);
      case OpAssign(_, _, _) => CompileOpAssign(e);
      case Bump(_, _) => CompileBump(e);
      case Call(_, _) => CompileCall(e);
      case _ => CompileLeaf(e);
    }

    method CompileLeaf(e: Expr)
      requires e.Literal? || e.NullLiteral? || e.BoolLiteral? || e.Variable? || (e.Iff? && e.args == [])
      modifies this, chunk
      ensures Grew(old(Now()), Now(), Codegen.CompileExpr(e, old(chunk.constants), nested))
      ensures loopStart == old(loopStart)
    {
      if e.Literal? {
        EmitConstant(e.v);
      } else if e.BoolLiteral? {
        EmitByte(if e.b then OP_PUSH_TRUE else OP_PUSH_FALSE);
      } else if e.Variable? {
        NamedVariable(e.name, false);
      } else {
        EmitByte(OP_PUSH_NULL);
      }
    }

    /** The right operand, the left operand, SWAP, the operator. */
    method CompileBinop(e: Expr)
      requires e.Binop?
      modifies this, chunk
      ensures Grew(old(Now()), Now(), Codegen.CompileExpr(e, old(chunk.constants), nested))
      ensures loopStart == old(loopStart)
      decreases e, 1
    {
      hide Codegen.Then, Codegen.Plus, Codegen.CompileExpr;
      ghost var s0 := Now();
      CompileExpr(e.right);
      ghost var s1 := Now();
      CompileExpr(e.left);
      ghost var r := Codegen.CompileExpr(e.right, s0.pool, nested);
      ghost var l := Codegen.CompileExpr(e.left, r.pool, nested);
      GrewThen(s0, s1, Now(), r, Codegen.CompileExpr(e.left, s1.pool, nested), l);
      GrewPlus(s0, Now(), Codegen.Then(r, l), Swap);
      EmitByte(OP_SWAP);
      GrewPlus(s0, Now(), Codegen.Plus(Codegen.Then(r, l), Swap), Binary(e.op));
      EmitByte(BinaryOpcode(e.op));
      BinopCode(e.op, e.left, e.right, s0.pool, nested);
    }

    method EmitBridge(name: string, negate: bool)
      modifies this`hadError, chunk
      ensures Grew(old(Now()), Now(), Codegen.BridgeCode(name, negate, old(chunk.constants)))
    {
      EmitByte(if negate then OP_NEGATED_BINARY_PREDICATE else OP_BINARY_PREDICATE);
      var index := MakeConstant(Text(name));
      EmitShort(index);
    }

    /** Predicate bridges compile their left operand first. */
    method CompileBridge(e: Expr)
      requires e.Bridge?
      modifies this, chunk
      ensures Grew(old(Now()), Now(), Codegen.CompileExpr(e, old(chunk.constants), nested))
      ensures loopStart == old(loopStart)
      decreases e, 1
    {
      hide Codegen.Then, Codegen.BridgeCode, Codegen.CompileExpr;
      ghost var s0 := Now();
      CompileExpr(e.left);
      ghost var s1 := Now();
      CompileExpr(e.right);
      ghost var s2 := Now();
      ghost var l := Codegen.CompileExpr(e.left, s0.pool, nested);
      ghost var r := Codegen.CompileExpr(e.right, l.pool, nested);
      GrewThen(s0, s1, s2, l, Codegen.CompileExpr(e.right, s1.pool, nested), r);
      ThenPool(l, r);
      EmitBridge(e.name, e.negate);
      GrewThen(s0, s2, Now(), Codegen.Then(l, r), Codegen.BridgeCode(e.name, e.negate, s2.pool),
               Codegen.BridgeCode(e.name, e.negate, r.pool));
      BridgeExprCode(e.name, e.negate, e.left, e.right, s0.pool, nested);
    }

    /** `&&` and `||`: the hole in the jump is filled when the right side is there. */
    method CompileLogical(e: Expr, left: Expr, right: Expr, opcode: Byte)
      requires (e == And(left, right) && opcode == OP_AND) || (e == Or(left, right) && opcode == OP_OR)
      modifies this, chunk
      ensures Grew(old(Now()), Now(), Codegen.CompileExpr(e, old(chunk.constants), nested))
      ensures loopStart == old(loopStart)
      decreases e, 1
    {
      hide Grew, Filled, JumpOver, Codegen.CompileExpr, Codegen.ShortCircuit;
      ghost var s0 := Now();
      CompileExpr(left);
      ghost var s1 := Now();
      ghost var l := Codegen.CompileExpr(left, s0.pool, nested);
      GrewPool(s0, s1, l);
      var endJump := EmitJump(opcode);
      ghost var open := Now();
      CompileExpr(right);
      ghost var actual := Codegen.CompileExpr(right, s1.pool, nested);
      ghost var s2 := Now();
      GrewLonger(open, s2, actual);
      PatchJump(endJump);
      LogicalGrew(s0, s1, s2, Now(), l, opcode, actual, Codegen.CompileExpr(right, l.pool, nested));
      LogicalCode(left, right, s0.pool, nested);
      ShortCircuitJump(l, Codegen.CompileExpr(right, l.pool, nested));
    }

    /** `!` and unary minus. */
    method CompileUnary(e: Expr, operand: Expr, opcode: Byte)
      requires (e == Expr.Not(operand) && opcode == OP_NOT) || (e == Minus(operand) && opcode == OP_NEGATE)
      modifies this, chunk
      ensures Grew(old(Now()), Now(), Codegen.CompileExpr(e, old(chunk.constants), nested))
      ensures loopStart == old(loopStart)
      decreases e, 1
    {
      hide Codegen.Plus, Codegen.CompileExpr;
      ghost var s0 := Now();
      CompileExpr(operand);
      GrewPlus(s0, Now(), Codegen.CompileExpr(operand, s0.pool, nested), if e.Not? then Instr.Not else Negate);
      EmitByte(opcode);
      UnaryCode(operand, s0.pool, nested);
    }

    /** The branches of `iff`, with their defaults. */
    method CompileIff(e: Expr)
      requires e.Iff? && |e.args| > 0
      modifies this, chunk
      ensures Grew(old(Now()), Now(), Codegen.CompileExpr(e, old(chunk.constants), nested))
      ensures loopStart == old(loopStart)
      decreases e, 1
    {
      hide Codegen.CompileExpr, Codegen.IffTest, Codegen.IffFirst, Codegen.IffSecond, Codegen.Branch, Grew, Filled, Encode;
      ghost var s0 := Now();
      IffPart(e, 0);
      ghost var s1 := Now();
      var falseJump := EmitTest();
      ghost var s2 := Now();
      IffPart(e, 1);
      ghost var s3 := Now();
      GrewLonger(s2, s3, Codegen.IffFirst(e.args, s2.pool, nested));
      var endJump := EmitElse(falseJump);
      ghost var s4 := Now();
      IffPart(e, 2);
      ghost var s5 := Now();
      GrewLonger(s4, s5, Codegen.IffSecond(e.args, s4.pool, nested));
      PatchJump(endJump);
      ghost var c := Codegen.IffTest(e.args, s0.pool, nested);
      ghost var t := Codegen.IffFirst(e.args, c.pool, nested);
      GrewPool(s0, s1, c);
      GrewPool(s2, s3, Codegen.IffFirst(e.args, s2.pool, nested));
      GrewError(s2, s3, Codegen.IffFirst(e.args, s2.pool, nested));
      BranchGrew(s0, s1, s3, s4, s5, Now(), c, Codegen.IffFirst(e.args, s1.pool, nested), t,
                 Codegen.IffSecond(e.args, s4.pool, nested), Codegen.IffSecond(e.args, t.pool, nested));
      IffCode(e.args, s0.pool, nested);
    }

    /** The jump a condition takes when it is false, and the POP when it is not. */
    method EmitTest() returns (falseJump: nat)
      modifies chunk`code
      ensures Now() == old(Now()).(code := old(chunk.code) + [OP_JUMP_IF_FALSE, 0xFF, 0xFF] + [OP_POP])
      ensures falseJump == |old(chunk.code)| + 1
    {
      falseJump := EmitJump(OP_JUMP_IF_FALSE);
      EmitByte(OP_POP);
    }

    /** Ends a first branch and starts the second one. */
    method EmitElse(falseJump: nat) returns (endJump: nat)
      requires falseJump + 2 <= |chunk.code|
      modifies this`hadError, chunk`code
      ensures var open := old(chunk.code) + [OP_JUMP, 0xFF, 0xFF];
              var distance := |open| - falseJump - 2;
              Now() == if distance > Codegen.SHORT_MAX then old(Now()).(code := open + [OP_POP], error := true)
                       else old(Now()).(code := Filled(open, falseJump, distance) + [OP_POP])
      ensures endJump == |old(chunk.code)| + 1
    {
      endJump := EmitJump(OP_JUMP);
      PatchJump(falseJump);
      EmitByte(OP_POP);
    }

    /** The condition (0), the first branch (1) or the second branch (2) of `iff`. */
    method IffPart(e: Expr, k: nat)
      requires e.Iff? && |e.args| > 0 && k <= 2
      modifies this, chunk
      ensures Grew(old(Now()), Now(),
                   if k == 0 then Codegen.IffTest(e.args, old(chunk.constants), nested)
                   else if k == 1 then Codegen.IffFirst(e.args, old(chunk.constants), nested)
                   else Codegen.IffSecond(e.args, old(chunk.constants), nested))
      ensures loopStart == old(loopStart)
      decreases e, 0
    {
      hide Codegen.CompileExpr;
      if k < |e.args| && (k > 0 || IsPredicateShape(e.args[0])) {
        CompileExpr(e.args[k]);
      } else if k == 0 {
        EmitByte(OP_PUSH_FALSE);
      } else if k == 1 {
        EmitConstant(Int(1));
      } else {
        EmitByte(OP_PUSH_NULL);
      }
    }

    method CompileAssign(e: Expr)
      requires e.Assign?
      modifies this, chunk
      ensures Grew(old(Now()), Now(), Codegen.CompileExpr(e, old(chunk.constants), nested))
      ensures loopStart == old(loopStart)
      decreases e, 1
    {
      hide Codegen.Then, Codegen.StoreCode, Codegen.CompileExpr;
      ghost var s0 := Now();
      CompileExpr(e.right);
      ghost var s1 := Now();
      NamedVariable(e.name, true);
      ghost var r := Codegen.CompileExpr(e.right, s0.pool, nested);
      GrewThen(s0, s1, Now(), r, Codegen.StoreCode(e.name, s1.pool, nested), Codegen.StoreCode(e.name, r.pool, nested));
      AssignCode(e.name, e.right, s0.pool, nested);
    }

    method CompileOpAssign(e: Expr)
      requires e.OpAssign?
      modifies this, chunk
      ensures Grew(old(Now()), Now(), Codegen.CompileExpr(e, old(chunk.constants), nested))
      ensures loopStart == old(loopStart)
      decreases e, 1
    {
      hide Codegen.Then, Codegen.Plus, Codegen.StoreCode, Codegen.LoadCode, Codegen.CompileExpr;
      ghost var s0 := Now();
      NamedVariable(e.name, false);
      ghost var s1 := Now();
      CompileExpr(e.right);
      ghost var l := Codegen.LoadCode(e.name, s0.pool, nested);
      ghost var r := Codegen.CompileExpr(e.right, l.pool, nested);
      GrewThen(s0, s1, Now(), l, Codegen.CompileExpr(e.right, s1.pool, nested), r);
      GrewPlus(s0, Now(), Codegen.Then(l, r), Binary(e.cop));
      EmitByte(BinaryOpcode(e.cop));
      ghost var s2 := Now();
      ThenPool(l, r);
      NamedVariable(e.name, true);
      GrewThen(s0, s2, Now(), Codegen.Plus(Codegen.Then(l, r), Binary(e.cop)),
               Codegen.StoreCode(e.name, s2.pool, nested), Codegen.StoreCode(e.name, r.pool, nested));
      OpAssignCode(e.name, e.cop, e.right, s0.pool, nested);
    }

    method CompileBump(e: Expr)
      requires e.Bump?
      modifies this, chunk
      ensures Grew(old(Now()), Now(), Codegen.CompileExpr(e, old(chunk.constants), nested))
      ensures loopStart == old(loopStart)
    {
      hide Codegen.Then, Codegen.StoreCode, Codegen.LoadCode;
      ghost var s0 := Now();
      NamedVariable(e.name, false);
      ghost var l := Codegen.LoadCode(e.name, s0.pool, nested);
      ghost var i := if e.increment then Increment else Decrement;
      GrewPlus(s0, Now(), l, i);
      EmitByte(if e.increment then OP_INCREMENT else OP_DECREMENT);
      ghost var s1 := Now();
      NamedVariable(e.name, true);
      GrewThen(s0, s1, Now(), Codegen.Plus(l, i), Codegen.StoreCode(e.name, s1.pool, nested),
               Codegen.StoreCode(e.name, l.pool, nested));
    }

    method EmitCall(name: string, count: nat)
      modifies this`hadError, chunk
      ensures Grew(old(Now()), Now(), Codegen.CallCode(name, count, old(chunk.constants)))
    {
      hide Encode, Codegen.FindConstant, Codegen.WithConstant, Codegen.ConstantOperand, Codegen.ConstantFits;
      if count > 255 {
        CompilerError();
      }
      var operand: Byte := count % 256;
      if count > 1 {
        EmitByte(OP_REVERSE);
        EmitByte(operand);
      }
      EmitByte(OP_CALL_NAMED);
      EmitByte(operand);
      var index := MakeConstant(Text(name));
      EmitShort(index);
      CallBytes(operand, index);
    }

    method CompileCall(e: Expr)
      requires e.Call?
      modifies this, chunk
      ensures Grew(old(Now()), Now(), Codegen.CompileExpr(e, old(chunk.constants), nested))
      ensures loopStart == old(loopStart)
      decreases e, 1
    {
      hide Codegen.Then, Codegen.CallCode, Codegen.LoadCode, Codegen.CompileArgs, Codegen.CompileExpr;
      ghost var s0 := Now();
      NamedVariable(e.name, false);
      ghost var s1 := Now();
      CompileArgs(e.args);
      ghost var s2 := Now();
      ghost var l := Codegen.LoadCode(e.name, s0.pool, nested);
      ghost var a := Codegen.CompileArgs(e.args, l.pool, nested);
      GrewThen(s0, s1, s2, l, Codegen.CompileArgs(e.args, s1.pool, nested), a);
      ThenPool(l, a);
      EmitCall(e.name, |e.args|);
      GrewThen(s0, s2, Now(), Codegen.Then(l, a), Codegen.CallCode(e.name, |e.args|, s2.pool),
               Codegen.CallCode(e.name, |e.args|, a.pool));
      CallExprCode(e.name, e.args, s0.pool, nested);
    }

    /** The arguments from the last to the first. */
    method CompileArgs(args: seq<Expr>)
      modifies this, chunk
      ensures Grew(old(Now()), Now(), Codegen.CompileArgs(args, old(chunk.constants), nested))
      ensures loopStart == old(loopStart)
      decreases args, 4
    {
      hide Codegen.Then, Codegen.CompileArg, Grew;
      ghost var s0 := Now();
      ghost var done := Code.Code([], s0.pool, true);
      ghost var all := Codegen.CompileArgs(args, s0.pool, nested);
      ThenNothing(s0.pool, all);
      GrewNothing(s0);
      var i := |args|;
      assert args[..i] == args;
      while i > 0
        invariant 0 <= i <= |args| && loopStart == old(loopStart)
        invariant Grew(s0, Now(), done)
        invariant Codegen.Then(done, Codegen.CompileArgs(args[..i], done.pool, nested)) == all
      {
        ghost var s1 := Now();
        ghost var c := Codegen.CompileArg(args[i - 1], done.pool, nested);
        assert args[..i][..i - 1] == args[..i - 1] && args[..i][i - 1] == args[i - 1];
        ThenThen(done, c, Codegen.CompileArgs(args[..i - 1], c.pool, nested));
        ThenPool(done, c);
        GrewPool(s0, s1, done);
        CompileArg(args[i - 1]);
        GrewThen(s0, s1, Now(), done, Codegen.CompileArg(args[i - 1], s1.pool, nested), c);
        done := Codegen.Then(done, c);
        i := i - 1;
      }
      ThenNothing(s0.pool, done);
    }

    /** A bare variable is passed by reference. */
    method CompileArg(e: Expr)
      modifies this, chunk
      ensures Grew(old(Now()), Now(), Codegen.CompileArg(e, old(chunk.constants), nested))
      ensures loopStart == old(loopStart)
      decreases e, 3
    {
      hide Codegen.CompileExpr, Grew;
      if e.Variable? {
        ReferenceVariable(e.name);
      } else {
        CompileExpr(e);
      }
    }

    // ----- statements -----

    method CompileEach(es: seq<Expr>)
      modifies this, chunk
      ensures Grew(old(Now()), Now(), Codegen.CompileEach(es, old(chunk.constants), nested))
      ensures loopStart == old(loopStart)
    {
      hide Codegen.Then, Codegen.Plus, Codegen.CompileExpr, Grew, Encode;
      ghost var s0 := Now();
      ghost var done := Code.Code([], s0.pool, true);
      ghost var all := Codegen.CompileEach(es, s0.pool, nested);
      ThenNothing(s0.pool, all);
      GrewNothing(s0);
      var i := 0;
      assert es[i..] == es;
      while i < |es|
        invariant 0 <= i <= |es| && loopStart == old(loopStart)
        invariant Grew(s0, Now(), done)
        invariant Codegen.Then(done, Codegen.CompileEach(es[i..], done.pool, nested)) == all
      {
        ghost var s1 := Now();
        ghost var c := Codegen.CompileExpr(es[i], done.pool, nested);
        ghost var popped := Codegen.Plus(c, Pop);
        assert es[i..][1..] == es[i + 1..] && es[i..][0] == es[i];
        ThenThen(done, popped, Codegen.CompileEach(es[i + 1..], popped.pool, nested));
        ThenPool(done, popped);
        GrewPool(s0, s1, done);
        CompileExpr(es[i]);
        GrewPlus(s1, Now(), Codegen.CompileExpr(es[i], s1.pool, nested), Pop);
        PopByte();
        EmitByte(OP_POP);
        GrewThen(s0, s1, Now(), done, Codegen.Plus(Codegen.CompileExpr(es[i], s1.pool, nested), Pop), popped);
        done := Codegen.Then(done, popped);
        i := i + 1;
      }
      ThenNothing(s0.pool, done);
    }

    method CompileBlock(body: seq<Stmt>)
      modifies this, chunk
      ensures Grew(old(Now()), Now(), Codegen.CompileBlock(body, old(chunk.constants), nested))
      ensures loopStart == old(loopStart)
      decreases body, 0
    {
      hide Codegen.Then, Codegen.CompileStmt, Grew;
      ghost var s0 := Now();
      ghost var done := Code.Code([], s0.pool, true);
      ghost var all := Codegen.CompileBlock(body, s0.pool, nested);
      ThenNothing(s0.pool, all);
      GrewNothing(s0);
      var i := 0;
      assert body[i..] == body;
      while i < |body|
        invariant 0 <= i <= |body| && loopStart == old(loopStart)
        invariant Grew(s0, Now(), done)
        invariant Codegen.Then(done, Codegen.CompileBlock(body[i..], done.pool, nested)) == all
      {
        ghost var s1 := Now();
        ghost var c := Codegen.CompileStmt(body[i], done.pool, nested);
        assert body[i..][1..] == body[i + 1..] && body[i..][0] == body[i];
        ThenThen(done, c, Codegen.CompileBlock(body[i + 1..], c.pool, nested));
        ThenPool(done, c);
        GrewPool(s0, s1, done);
        CompileStmt(body[i]);
        GrewThen(s0, s1, Now(), done, Codegen.CompileStmt(body[i], s1.pool, nested), c);
        done := Codegen.Then(done, c);
        i := i + 1;
      }
      ThenNothing(s0.pool, done);
    }

    method CompileStmt(s: Stmt)
      modifies this, chunk
      ensures Grew(old(Now()), Now(), Codegen.CompileStmt(s, old(chunk.constants), nested))
      ensures loopStart == old(loopStart)
      decreases s, 3
    {
      hide Codegen.CompileStmt, Grew;
      match s
      case ExprStmt(e) => CompileExprStmt(e);
      case Empty => CompileEmpty();
      case If(_, _, _) => CompileIfStmt(s);
      case While(_, _) => CompileWhile(s);
      case For(_, _, _, _) => CompileFor(s);
      case Forever(_, _, _) => CompileForever(s);
      case Foreach(_, _, _, _) => CompileForeach(s);
    }

    method CompileEmpty()
      modifies this, chunk
      ensures Grew(old(Now()), Now(), Codegen.CompileStmt(Empty, old(chunk.constants), nested))
      ensures loopStart == old(loopStart)
    {
      EmitByte(OP_NOP);
    }

    method CompileExprStmt(e: Expr)
      modifies this, chunk
      ensures Grew(old(Now()), Now(), Codegen.CompileStmt(ExprStmt(e), old(chunk.constants), nested))
      ensures loopStart == old(loopStart)
    {
      hide Codegen.CompileExpr, Codegen.Plus, Grew, Encode;
      ghost var s0 := Now();
      CompileExpr(e);
      GrewPlus(s0, Now(), Codegen.CompileExpr(e, s0.pool, nested), Pop);
      PopByte();
      EmitByte(OP_POP);
    }

    method CompileIfStmt(s: Stmt)
      requires s.If?
      modifies this, chunk
      ensures Grew(old(Now()), Now(), Codegen.CompileStmt(s, old(chunk.constants), nested))
      ensures loopStart == old(loopStart)
      decreases s, 2
    {
      hide Codegen.CompileExpr, Codegen.CompileBlock, Codegen.CompileStmt, Codegen.Branch, Grew, Filled, Encode;
      ghost var s0 := Now();
      CompileExpr(s.cond);
      ghost var s1 := Now();
      var thenJump := EmitTest();
      ghost var s2 := Now();
      CompileBlock(s.thenBody);
      ghost var s3 := Now();
      GrewLonger(s2, s3, Codegen.CompileBlock(s.thenBody, s2.pool, nested));
      var elseJump := EmitElse(thenJump);
      ghost var s4 := Now();
      CompileBlock(s.elseBody);
      ghost var s5 := Now();
      GrewLonger(s4, s5, Codegen.CompileBlock(s.elseBody, s4.pool, nested));
      PatchJump(elseJump);
      ghost var c := Codegen.CompileExpr(s.cond, s0.pool, nested);
      ghost var t := Codegen.CompileBlock(s.thenBody, c.pool, nested);
      GrewPool(s0, s1, c);
      GrewPool(s2, s3, Codegen.CompileBlock(s.thenBody, s2.pool, nested));
      GrewError(s2, s3, Codegen.CompileBlock(s.thenBody, s2.pool, nested));
      BranchGrew(s0, s1, s3, s4, s5, Now(), c, Codegen.CompileBlock(s.thenBody, s1.pool, nested), t,
                 Codegen.CompileBlock(s.elseBody, s4.pool, nested), Codegen.CompileBlock(s.elseBody, t.pool, nested));
      StmtCode(s, s0.pool, nested);
    }

    /** The end of a while or for loop: the jump back, the patched exit, POP. */
    method FinishLoop(exitJump: nat)
      requires 0 <= loopStart <= |chunk.code| && exitJump + 2 <= |chunk.code|
      modifies this`hadError, chunk`code
      ensures var back := |old(chunk.code)| + 3 - loopStart;
              var open := if back > Codegen.LOOP_MAX then old(chunk.code) + [OP_LOOP] else old(chunk.code) + Encode(Loop(back));
              var forward := |open| - exitJump - 2;
              Now() == if forward > Codegen.SHORT_MAX then old(Now()).(code := open + [OP_POP], error := true)
                       else Progress(Filled(open, exitJump, forward) + [OP_POP], old(chunk.constants),
                                     old(hadError) || back > Codegen.LOOP_MAX)
    {
      EmitLoop(loopStart);
      PatchJump(exitJump);
      EmitByte(OP_POP);
    }

    method CompileWhile(s: Stmt)
      requires s.While?
      modifies this, chunk
      ensures Grew(old(Now()), Now(), Codegen.CompileStmt(s, old(chunk.constants), nested))
      ensures loopStart == old(loopStart)
      decreases s, 2
    {
      hide Codegen.CompileExpr, Codegen.CompileBlock, Codegen.CompileStmt, Codegen.LoopBlock, Grew, Filled, Encode;
      ghost var s0 := Now();
      var outerLoopStart := loopStart;
      loopStart := |chunk.code|;
      CompileExpr(s.cond);
      ghost var s1 := Now();
      ghost var c := Codegen.CompileExpr(s.cond, s0.pool, nested);
      GrewLonger(s0, s1, c);
      var exitJump := EmitTest();
      ghost var s2 := Now();
      CompileBlock(s.body);
      ghost var s3 := Now();
      ghost var b := Codegen.CompileBlock(s.body, c.pool, nested);
      GrewLonger(s2, s3, Codegen.CompileBlock(s.body, s2.pool, nested));
      GrewPool(s0, s1, c);
      FinishLoop(exitJump);
      LoopGrew(s0, s1, s3, Now(), c, Codegen.CompileBlock(s.body, s1.pool, nested), b);
      loopStart := outerLoopStart;
      StmtCode(s, s0.pool, nested);
    }

    /** A loop body and its increments. */
    method CompilePass(body: seq<Stmt>, increment: seq<Expr>)
      modifies this, chunk
      ensures Grew(old(Now()), Now(), Codegen.PassCode(body, increment, old(chunk.constants), nested))
      ensures loopStart == old(loopStart)
      decreases body, 1
    {
      hide Codegen.CompileBlock, Codegen.CompileEach, Codegen.Then, Grew;
      ghost var s0 := Now();
      CompileBlock(body);
      ghost var s1 := Now();
      CompileEach(increment);
      ghost var b := Codegen.CompileBlock(body, s0.pool, nested);
      GrewPool(s0, s1, b);
      GrewThen(s0, s1, Now(), b, Codegen.CompileEach(increment, s1.pool, nested),
               Codegen.CompileEach(increment, b.pool, nested));
    }

    method CompileFor(s: Stmt)
      requires s.For?
      modifies this, chunk
      ensures Grew(old(Now()), Now(), Codegen.CompileStmt(s, old(chunk.constants), nested))
      ensures loopStart == old(loopStart)
      decreases s, 2
    {
      hide Codegen.CompileExpr, Codegen.PassCode, Codegen.CompileEach, Codegen.CompileStmt, Codegen.LoopBlock,
        Codegen.Then, Grew, Filled, Encode;
      ghost var start := Now();
      CompileEach(s.init);
      ghost var s0 := Now();
      ghost var i := Codegen.CompileEach(s.init, start.pool, nested);
      var outerLoopStart := loopStart;
      loopStart := |chunk.code|;
      CompileExpr(s.cond);
      ghost var s1 := Now();
      ghost var c := Codegen.CompileExpr(s.cond, s0.pool, nested);
      GrewLonger(s0, s1, c);
      var exitJump := EmitTest();
      ghost var s2 := Now();
      CompilePass(s.body, s.increment);
      ghost var s3 := Now();
      ghost var b := Codegen.PassCode(s.body, s.increment, c.pool, nested);
      GrewLonger(s2, s3, Codegen.PassCode(s.body, s.increment, s2.pool, nested));
      GrewPool(s0, s1, c);
      FinishLoop(exitJump);
      LoopGrew(s0, s1, s3, Now(), c, Codegen.PassCode(s.body, s.increment, s1.pool, nested), b);
      loopStart := outerLoopStart;
      GrewPool(start, s0, i);
      ghost var c' := Codegen.CompileExpr(s.cond, i.pool, nested);
      GrewThen(start, s0, Now(), i, Codegen.LoopBlock(c, b),
               Codegen.LoopBlock(c', Codegen.PassCode(s.body, s.increment, c'.pool, nested)));
      StmtCode(s, start.pool, nested);
    }

    method CompileForever(s: Stmt)
      requires s.Forever?
      modifies this, chunk
      ensures Grew(old(Now()), Now(), Codegen.CompileStmt(s, old(chunk.constants), nested))
      ensures loopStart == old(loopStart)
      decreases s, 2
    {
      hide Codegen.PassCode, Codegen.CompileEach, Codegen.CompileStmt, Codegen.EndlessBlock, Codegen.Then, Grew, Encode;
      ghost var start := Now();
      CompileEach(s.init);
      ghost var s0 := Now();
      ghost var i := Codegen.CompileEach(s.init, start.pool, nested);
      var outerLoopStart := loopStart;
      loopStart := |chunk.code|;
      CompilePass(s.body, s.increment);
      ghost var s1 := Now();
      ghost var b := Codegen.PassCode(s.body, s.increment, s0.pool, nested);
      GrewLonger(s0, s1, b);
      EmitLoop(loopStart);
      EndlessGrew(s0, s1, Now(), b);
      loopStart := outerLoopStart;
      GrewPool(start, s0, i);
      GrewThen(start, s0, Now(), i, Codegen.EndlessBlock(b),
               Codegen.EndlessBlock(Codegen.PassCode(s.body, s.increment, i.pool, nested)));
      StmtCode(s, start.pool, nested);
    }

    /** OP_STORE_GLOBAL of a foreach variable, and POP. */
    method EmitForeachStore(name: string)
      modifies this`hadError, chunk
      ensures Grew(old(Now()), Now(), Codegen.Plus(Codegen.CheckedStoreCode(name, old(chunk.constants)), Pop))
    {
      hide Codegen.FindConstant, Codegen.WithConstant, Codegen.ConstantOperand, Codegen.ConstantFits;
      EmitByte(OP_STORE_GLOBAL);
      var index := MakeConstant(Text(name));
      EmitShort(index);
      EmitByte(OP_POP);
    }

    method EmitBindings(index: Option<string>, value: string)
      modifies this`hadError, chunk
      ensures Grew(old(Now()), Now(), Codegen.BindCode(index, value, old(chunk.constants)))
    {
      hide Codegen.CheckedStoreCode, Codegen.Plus, Codegen.Then, Grew;
      ghost var s0 := Now();
      EmitForeachStore(value);
      ghost var s1 := Now();
      ghost var v := Codegen.Plus(Codegen.CheckedStoreCode(value, s0.pool), Pop);
      if index.Some? {
        EmitForeachStore(index.value);
      } else {
        EmitByte(OP_POP);
        PopGrew(s1);
      }
      GrewPool(s0, s1, v);
      GrewThen(s0, s1, Now(), v, Codegen.KeyCode(index, s1.pool), Codegen.KeyCode(index, v.pool));
    }

    method CompileForeachBody(s: Stmt)
      requires s.Foreach?
      modifies this, chunk
      ensures Grew(old(Now()), Now(), Codegen.ForeachBody(s.index, s.value, s.body, old(chunk.constants), nested))
      ensures loopStart == old(loopStart)
      decreases s, 1
    {
      hide Codegen.BindCode, Codegen.CompileBlock, Codegen.Then, Grew;
      ghost var s0 := Now();
      EmitBindings(s.index, s.value);
      ghost var s1 := Now();
      CompileBlock(s.body);
      ghost var v := Codegen.BindCode(s.index, s.value, s0.pool);
      GrewPool(s0, s1, v);
      GrewThen(s0, s1, Now(), v, Codegen.CompileBlock(s.body, s1.pool, nested),
               Codegen.CompileBlock(s.body, v.pool, nested));
    }

    method CompileForeach(s: Stmt)
      requires s.Foreach?
      modifies this, chunk
      ensures Grew(old(Now()), Now(), Codegen.CompileStmt(s, old(chunk.constants), nested))
      ensures loopStart == old(loopStart)
      decreases s, 2
    {
      hide Codegen.CompileExpr, Codegen.ForeachBody, Codegen.CompileStmt, Codegen.ForeachBlock, Codegen.PushConstantCode,
        Codegen.Then, Grew, Filled, Encode;
      ghost var start := Now();
      CompileExpr(s.generator);
      ghost var mid := Now();
      EmitConstant(Int(0));
      ghost var s0 := Now();
      ghost var g := Codegen.CompileExpr(s.generator, start.pool, nested);
      ghost var zero := Codegen.PushConstantCode(g.pool, Int(0));
      GrewPool(start, mid, g);
      GrewThen(start, mid, s0, g, Codegen.PushConstantCode(mid.pool, Int(0)), zero);
      var outerLoopStart := loopStart;
      loopStart := |chunk.code|;
      var exitJump := EmitJump(if s.index.None? then OP_FOREACH_NEXT_VALUE else OP_FOREACH_NEXT);
      ghost var s1 := Now();
      CompileForeachBody(s);
      ghost var s2 := Now();
      ghost var b := Codegen.ForeachBody(s.index, s.value, s.body, s0.pool, nested);
      GrewLonger(s1, s2, b);
      FinishLoop(exitJump);
      EmitByte(OP_POP);
      ForeachGrew(s0, s2, Now(), s.index.None?, b);
      loopStart := outerLoopStart;
      ghost var all := Codegen.Then(g, zero);
      GrewPool(start, s0, all);
      GrewThen(start, s0, Now(), all, Codegen.ForeachBlock(s.index.None?, b),
               Codegen.ForeachBlock(s.index.None?, Codegen.ForeachBody(s.index, s.value, s.body, all.pool, nested)));
      StmtCode(s, start.pool, nested);
    }

    /** A whole function body, with the return every body ends with. */
    method CompileBody(body: seq<Stmt>)
      requires chunk.constants == []
      modifies this, chunk
      ensures Grew(old(Now()), Now(), Codegen.CompileBody(body, nested))
      ensures loopStart == old(loopStart)
    {
      hide Codegen.CompileBlock, Codegen.Plus, Grew, Encode;
      ghost var s0 := Now();
      CompileBlock(body);
      ghost var c := Codegen.CompileBlock(body, [], nested);
      ReturnBytes();
      GrewPlus(s0, Now(), c, PushNull);
      EmitByte(OP_PUSH_NULL);
      GrewPlus(s0, Now(), Codegen.Plus(c, PushNull), Return);
      EmitByte(OP_RETURN);
    }
  }

  /** slp_compile: the function's chunk, or nothing when a compile error was reported.
      A body compiles exactly when no jump, loop, call or constant is too large. */
  method CompileFunction(body: seq<Stmt>, nested: bool) returns (r: Option<(seq<Byte>, seq<Value>)>)
    ensures r.Some? <==> Codegen.CompileBody(body, nested).ok
    ensures r.Some? ==>
      r.value == (Codegen.CompileBody(body, nested).bytes, Codegen.CompileBody(body, nested).pool)
  {
    var compiler := new Compiler(nested);
    compiler.CompileBody(body);
    if compiler.hadError {
      return None;
    }
    assert [] + Codegen.CompileBody(body, nested).bytes == Codegen.CompileBody(body, nested).bytes;
    return Some((compiler.chunk.code, compiler.chunk.constants));
  }
}
