/** Where the parts of a construct lie once its code stands in a code array. */
module CodeLayout {
  import opened Values
  import opened Instructions
  import opened Codegen

  /** The code `c`, compiled without error, stands at `ip`. */
  ghost predicate Sits(code: seq<Byte>, ip: nat, c: Code) {
    c.ok && At(code, ip, c.bytes)
  }

  lemma JumpLengths(distance: Short)
    ensures |Encode(JumpIfFalse(distance))| == 3 && |Encode(Jump(distance))| == 3 && |Encode(Loop(distance))| == 3
    ensures |Encode(ForeachNext(distance))| == 3 && |Encode(ForeachNextValue(distance))| == 3
    ensures |Encode(Pop)| == 1
  {
  }

  lemma SimpleLengths(op: BinaryOp)
    ensures |Encode(Swap)| == 1 && |Encode(Binary(op))| == 1 && |Encode(Pop)| == 1 && |Encode(Nop)| == 1
    ensures |Encode(Instr.Not)| == 1 && |Encode(Negate)| == 1
    ensures |Encode(Increment)| == 1 && |Encode(Decrement)| == 1
    ensures |Encode(PushNull)| == 1 && |Encode(PushTrue)| == 1 && |Encode(PushFalse)| == 1
  {
  }

  lemma ThenLayout(code: seq<Byte>, ip: nat, a: Code, b: Code)
    requires Sits(code, ip, Then(a, b))
    ensures Sits(code, ip, a) && Sits(code, ip + |a.bytes|, b)
    ensures |Then(a, b).bytes| == |a.bytes| + |b.bytes|
  {
    AtSplit(code, ip, a.bytes, b.bytes);
  }

  lemma PlusLayout(code: seq<Byte>, ip: nat, a: Code, i: Instr)
    requires Sits(code, ip, Plus(a, i))
    ensures Sits(code, ip, a) && At(code, ip + |a.bytes|, Encode(i))
    ensures |Plus(a, i).bytes| == |a.bytes| + Length(i)
  {
    AtSplit(code, ip, a.bytes, Encode(i));
  }

  lemma ShortCircuitLayout(code: seq<Byte>, ip: nat, l: Code, isAnd: bool, r: Code)
    requires Sits(code, ip, ShortCircuit(l, isAnd, r))
    ensures |r.bytes| <= SHORT_MAX
    ensures var jump := if isAnd then AndJump(|r.bytes|) else OrJump(|r.bytes|);
            Sits(code, ip, l) && At(code, ip + |l.bytes|, Encode(jump)) && Sits(code, ip + |l.bytes| + 3, r)
    ensures |ShortCircuit(l, isAnd, r).bytes| == |l.bytes| + 3 + |r.bytes|
  {
    var jump := if isAnd then AndJump(|r.bytes|) else OrJump(|r.bytes|);
    AtSplit(code, ip, l.bytes + Encode(jump), r.bytes);
    AtSplit(code, ip, l.bytes, Encode(jump));
  }

  /** Condition, JUMP_IF_FALSE, POP, first, JUMP, POP, second. */
  lemma BranchLayout(code: seq<Byte>, ip: nat, c: Code, first: Code, second: Code)
    requires Sits(code, ip, Branch(c, first, second))
    ensures |first.bytes| + 4 <= SHORT_MAX && |second.bytes| + 1 <= SHORT_MAX
    ensures var a := ip + |c.bytes|;
            var b := a + 4 + |first.bytes|;
            && Sits(code, ip, c)
            && At(code, a, Encode(JumpIfFalse(|first.bytes| + 4)))
            && At(code, a + 3, Encode(Pop))
            && Sits(code, a + 4, first)
            && At(code, b, Encode(Jump(|second.bytes| + 1)))
            && At(code, b + 3, Encode(Pop))
            && Sits(code, b + 4, second)
    ensures |Branch(c, first, second).bytes| == |c.bytes| + |first.bytes| + |second.bytes| + 8
  {
    hide Encode, At;
    var j1, j2 := Encode(JumpIfFalse(|first.bytes| + 4)), Encode(Jump(|second.bytes| + 1));
    var pop := Encode(Pop);
    JumpLengths(|first.bytes| + 4);
    JumpLengths(|second.bytes| + 1);
    AtFour(code, ip, c.bytes + j1 + pop + first.bytes, j2, pop, second.bytes);
    AtFour(code, ip, c.bytes, j1, pop, first.bytes);
  }

  /** Condition, JUMP_IF_FALSE, POP, body, LOOP, POP. */
  lemma LoopLayout(code: seq<Byte>, ip: nat, c: Code, b: Code)
    requires Sits(code, ip, LoopBlock(c, b))
    ensures |b.bytes| + 4 <= SHORT_MAX && |c.bytes| + |b.bytes| + 7 <= LOOP_MAX
    ensures var a := ip + |c.bytes|;
            && Sits(code, ip, c)
            && At(code, a, Encode(JumpIfFalse(|b.bytes| + 4)))
            && At(code, a + 3, Encode(Pop))
            && Sits(code, a + 4, b)
            && At(code, a + 4 + |b.bytes|, Encode(Loop(|c.bytes| + |b.bytes| + 7)))
            && At(code, a + 7 + |b.bytes|, Encode(Pop))
    ensures |LoopBlock(c, b).bytes| == |c.bytes| + |b.bytes| + 8
  {
    hide Encode, At;
    var forward, back := |b.bytes| + 4, |c.bytes| + |b.bytes| + 7;
    JumpLengths(forward);
    JumpLengths(back);
    AtSplit(code, ip, c.bytes + Encode(JumpIfFalse(forward)) + Encode(Pop) + b.bytes + Encode(Loop(back)), Encode(Pop));
    AtSplit(code, ip, c.bytes + Encode(JumpIfFalse(forward)) + Encode(Pop) + b.bytes, Encode(Loop(back)));
    AtFour(code, ip, c.bytes, Encode(JumpIfFalse(forward)), Encode(Pop), b.bytes);
  }

  lemma EndlessLayout(code: seq<Byte>, ip: nat, b: Code)
    requires Sits(code, ip, EndlessBlock(b))
    ensures |b.bytes| + 3 <= LOOP_MAX
    ensures Sits(code, ip, b) && At(code, ip + |b.bytes|, Encode(Loop(|b.bytes| + 3)))
    ensures |EndlessBlock(b).bytes| == |b.bytes| + 3
  {
    hide Encode, At;
    JumpLengths(|b.bytes| + 3);
    AtSplit(code, ip, b.bytes, Encode(Loop(|b.bytes| + 3)));
  }

  function ForeachInstr(valueOnly: bool, distance: Short): Instr {
    if valueOnly then ForeachNextValue(distance) else ForeachNext(distance)
  }

  /** FOREACH_NEXT, body, LOOP, POP, POP. */
  lemma ForeachLayout(code: seq<Byte>, ip: nat, valueOnly: bool, b: Code)
    requires Sits(code, ip, ForeachBlock(valueOnly, b))
    ensures |b.bytes| + 3 <= SHORT_MAX && |b.bytes| + 6 <= LOOP_MAX
    ensures At(code, ip, Encode(ForeachInstr(valueOnly, |b.bytes| + 3)))
    ensures Sits(code, ip + 3, b)
    ensures At(code, ip + 3 + |b.bytes|, Encode(Loop(|b.bytes| + 6)))
    ensures At(code, ip + 6 + |b.bytes|, Encode(Pop)) && At(code, ip + 7 + |b.bytes|, Encode(Pop))
    ensures |ForeachBlock(valueOnly, b).bytes| == |b.bytes| + 8
  {
    hide Encode, At;
    var forward, back := |b.bytes| + 3, |b.bytes| + 6;
    var head := Encode(ForeachInstr(valueOnly, forward));
    JumpLengths(forward);
    JumpLengths(back);
    AtSplit(code, ip, head + b.bytes + Encode(Loop(back)) + Encode(Pop), Encode(Pop));
    AtFour(code, ip, head, b.bytes, Encode(Loop(back)), Encode(Pop));
  }

  lemma BodyLayout(code: seq<Byte>, ip: nat, c: Code)
    requires Sits(code, ip, Plus(Plus(c, PushNull), Return))
    ensures Sits(code, ip, c)
    ensures At(code, ip + |c.bytes|, Encode(PushNull)) && At(code, ip + |c.bytes| + 1, Encode(Return))
  {
    hide At;
    PlusLayout(code, ip, Plus(c, PushNull), Return);
    PlusLayout(code, ip, c, PushNull);
  }
}
