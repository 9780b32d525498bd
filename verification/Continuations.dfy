/** How control comes back from an invoked continuation: exactly when the invoker gets it. */
module Continuations {
  import opened Values
  import opened Control
  import opened ControlSteps
  import opened Relocation
  import opened Coroutines
  import opened ControlRuns
  import opened Activations

  // ----- the root frame of an activation -----

  /** The root frame is the one it was; at most it has run on. */
  predicate SameRoot(a: Slice, b: Slice) {
    a.frames != [] && b.frames != [] && a.frames[0].(ip := 0) == b.frames[0].(ip := 0)
  }

  lemma SetIpRoot(s: Slice, ip: nat)
    requires s.frames != []
    ensures SameRoot(s, s.(frames := SetIp(s.frames, ip)))
  {
  }

  lemma CallKeepsRoot(a: State, id: nat, inline: bool, callName: Value, c: Call, ip: nat)
    requires Valid(a) && a.now.frames != [] && Callee(a.now, c) >= Floor(a.now) && CallStep(a, id, inline, callName, c, ip).Next?
    ensures SameRoot(a.now, CallStep(a, id, inline, callName, c, ip).s.now)
  {
    hide Valid, Ok, Floor, Rebound, SetIp, Arguments, Message;
    SetIpRoot(a.now, ip);
  }

  lemma StepKeepsRoot(a: State, i: Instr)
    requires Live(a) && Within(a.now, i, 0) && Step(a, i).Next?
    ensures SameRoot(a.now, Step(a, i).s.now)
  {
    hide Ok, ContinuationOk, Returns, Floor, Root, Trim, Over, CallStep;
    match i
    case CallClosure(closure, inline, callName, call, ip) => CallKeepsRoot(a, closure, inline, callName, call, ip);
    case Raise => LastOk(a.now);
    case CallCC(self, receiver) =>
      CaptureValid(a);
      HandOverKeepsRoot(CaptureStep(a), self, receiver);
    case _ =>
  }

  lemma HandOverKeepsRoot(a: State, self: Value, receiver: Option<Receiver>)
    requires Valid(a) && a.now.frames != [] && HandOver(a, self, receiver).Next?
    ensures SameRoot(a.now, HandOver(a, self, receiver).s.now)
  {
    hide Ok, ContinuationOk, Returns, Floor, CallStep;
    if receiver.Some? {
      var r := receiver.value;
      PushedOk(a.now, r.value);
      PushedOk(Pushed(a.now, r.value), self);
      var now := Pushed(Pushed(a.now, r.value), self);
      NowValid(a, now);
      FloorBounds(a.now);
      SameFloor(a.now, now.stack);
      CallKeepsRoot(a.(now := now), r.closure, r.inline, r.callName, Call(1, false, r.passed), now.frames[|now.frames| - 1].ip);
    }
  }

  lemma {:induction false} RunKeepsRoot(a: State, run: seq<Instr>)
    requires Live(a) && RunWithin(a, run, 0) && Run(a, run).Next?
    ensures SameRoot(a.now, Run(a, run).s.now)
    decreases |run|
  {
    hide Valid, Ok, Step, Within;
    if run != [] {
      StepLive(a, run[0]);
      StepKeepsRoot(a, run[0]);
      RunKeepsRoot(Step(a, run[0]).s, run[1..]);
    }
  }

  // ----- leaving the resumed activation -----

  /** The instruction leaves the activation whose root is frame `n`: the frame returns, or
      inline code it called does, or it yields. */
  predicate Leaves(t: Slice, i: Instr, n: nat)
    requires t.frames != []
  {
    match i
    case Return => |t.frames| == n + 1
    case InlineReturn => Root(t.frames) == n
    case Yield => Root(t.frames) == n
    case _ => false
  }

  /** What lies below the frame a continuation resumes. */
  function Below(k: Continuation): Slice
    requires Ok(k.context) && k.resume.Some? && k.resume.value < |k.context.frames|
  {
    RootInStack(k.context, k.resume.value);
    Under(k.context, k.resume.value)
  }

  /** Just behind the invocation: the captured activation, its root noting the invoker, lies
      on what it lay on when it was captured. */
  lemma InvokePlaces(s: State, k: nat, c: Call, ip: nat)
    requires Live(s) && Step(s, Invoke(k, c, ip)).Next? && s.conts[k].resume.Some?
    ensures k < |s.conts| && ContinuationOk(s.conts[k], s.conts) && Ok(Step(s, Invoke(k, c, ip)).s.now)
    ensures Ok(s.conts[k].context) && s.conts[k].resume.value < |s.conts[k].context.frames|
    ensures var u, r := Step(s, Invoke(k, c, ip)).s, s.conts[k].resume.value;
            && Live(u) && r < |u.now.frames| && u.now.frames[r].returnTo == Some(|s.conts|)
            && var a := State(Over(u.now, r), u.saved, u.conts);
               && Live(a) && Placed(Below(s.conts[k]), u, a) && |Below(s.conts[k]).frames| == r
               && a.now.frames[0].returnTo == Some(|s.conts|)
  {
    InvokeLive(s, k, c, ip);
    assert ContinuationOk(s.conts[k], s.conts);
    var u, r := Step(s, Invoke(k, c, ip)).s, s.conts[k].resume.value;
    RestoredBelow(s, k, c, ip);
    hide ContinuationOk, Ok, Floor, Under, Over, Place, Returns, Restored;
    assert Ok(u.now);
    CutAndPlace(u.now, r);
    UnderOk(u.now, r);
    OverOk(u.now, r);
    OverReturns(u, r);
    OverRoot(u.now, r);
    NowValid(u, Over(u.now, r));
  }

  lemma OverRoot(s: Slice, r: nat)
    requires Ok(s) && r < |s.frames|
    ensures Over(s, r).frames != [] && Over(s, r).frames[0].returnTo == s.frames[r].returnTo
  {
    AboveBase(s, r);
    assert s.frames[r..][0] == s.frames[r];
  }

  lemma RestoredBelow(s: State, k: nat, c: Call, ip: nat)
    requires Live(s) && Step(s, Invoke(k, c, ip)).Next? && s.conts[k].resume.Some? && ContinuationOk(s.conts[k], s.conts)
    ensures var u, r := Step(s, Invoke(k, c, ip)).s, s.conts[k].resume.value;
            && r < |u.now.frames| && u.now.frames[r].slots <= |u.now.stack| && u.now.frames[r].returnTo == Some(|s.conts|)
            && Under(u.now, r) == Below(s.conts[k]) && |Below(s.conts[k]).frames| == r
  {
    hide Floor, Trim, Monotone, HandlerOk, Returns, SetIp;
    var u, r, was := Step(s, Invoke(k, c, ip)).s, s.conts[k].resume.value, s.conts[k].context;
    RootInStack(was, r);
    var base := was.frames[r].slots;
    assert u.now.frames[r].slots == base;
    assert u.now.stack[..base] == was.stack[..base];
    assert u.now.frames[..r] == was.frames[..r];
    assert u.now.handlers == was.handlers;
  }

  /** Where control goes when the activation resumed by a continuation is left, whatever ran
      inside it: to the invoker by a return, and by an inline return or a yield to whatever
      the activation lay on when it was captured. So the invoker gets control back exactly
      by a return, or when it is what the activation lay on. */
  lemma InvokerRegained(s: State, k: nat, c: Call, ip: nat, run: seq<Instr>, leave: Instr)
    requires Live(s) && Step(s, Invoke(k, c, ip)).Next? && s.conts[k].resume.Some?
    requires var u, r := Step(s, Invoke(k, c, ip)).s, s.conts[k].resume.value;
             && Live(u) && RunWithin(u, run, r) && Run(u, run).Next?
             && var v := Run(u, run).s; Live(v) && Leaves(v.now, leave, r) && Step(v, leave).Next?
    ensures ContinuationOk(s.conts[k], s.conts) && Callee(s.now, c) >= 0
    ensures var v := Run(Step(s, Invoke(k, c, ip)).s, run).s;
            var invoker, below := Caller(s.now, c, ip), Below(s.conts[k]);
            && v.now.stack != []
            && Step(v, leave).s.now == Pushed(if leave.Return? then invoker else below, Top(v.now))
            && (Step(v, leave).s.now == Pushed(invoker, Top(v.now)) <==> leave.Return? || below == invoker)
  {
    hide Live, Valid, Ok, Step, Run, RunWithin, Leaves, Placed, Over, Below, ContinuationOk, Caller;
    InvokePlaces(s, k, c, ip);
    InvokeKeeps(s, k, c, ip);
    var u, r := Step(s, Invoke(k, c, ip)).s, s.conts[k].resume.value;
    var below := Below(s.conts[k]);
    var a := State(Over(u.now, r), u.saved, u.conts);
    RunInside(below, u, a, run);
    RunKeepsRoot(a, run);
    RunExtends(u, run);
    var v, b := Run(u, run).s, Run(a, run).s;
    assert v.conts[|s.conts|] == u.conts[|s.conts|];
    LeftPlaced(below, v, b, leave, |s.conts|);
    PushedSame(below, Caller(s.now, c, ip), Top(v.now));
  }

  lemma PushedSame(a: Slice, b: Slice, v: Value)
    ensures Pushed(a, v) == Pushed(b, v) <==> a == b
  {
    if Pushed(a, v) == Pushed(b, v) {
      assert a.stack == Pushed(a, v).stack[..|a.stack|] == Pushed(b, v).stack[..|b.stack|] == b.stack;
    }
  }

  lemma LeftPlaced(under: Slice, v: State, b: State, leave: Instr, j: nat)
    requires Live(v) && Live(b) && Placed(under, v, b) && Leaves(v.now, leave, |under.frames|) && Step(v, leave).Next?
    requires b.now.frames != [] && b.now.frames[0].returnTo == Some(j) && j < |v.conts|
    ensures v.now.stack != []
    ensures Step(v, leave).s.now == Pushed(if leave.Return? then v.conts[j].context else under, Top(v.now))
  {
    hide Ok, Place, Floor, Root, Over, ContinuationOk, Under;
    NotEmpty(v.now);
    FrameAt(under, b.now, 0);
    if leave.Return? {
      ReturnThrough(v, j);
    } else {
      PopWithin(under, v, b);
      UnderRoot(under, Popped(b.now));
    }
  }

  // ----- what an invocation and a capture leave -----

  /** The value given to a continuation, its first argument or its message, is the result of
      the callcc it resumes, and is in slot 2 of the resumed frame, the arguments in slot 11;
      everything else of the captured context is as it was captured. The suspended
      activation of the owner is dropped, and no other. */
  lemma InvokeCarries(s: State, k: nat, c: Call, ip: nat)
    requires Live(s) && Step(s, Invoke(k, c, ip)).Next?
    ensures k < |s.conts| && Callee(s.now, c) >= 0
    ensures var u, cont, at := Step(s, Invoke(k, c, ip)).s, s.conts[k], Callee(s.now, c);
            var was := cont.context;
            var value := if c.args > 0 || c.hasMessage then s.now.stack[at + 1] else Null;
            && |u.now.stack| == |was.stack| + 1 && Top(u.now) == value
            && (forall j | 0 <= j < |was.stack| ::
                  u.now.stack[j] == if ResumedSlot(cont, j, 2) then value else if ResumedSlot(cont, j, 11) then c.passed else was.stack[j])
            && u.now.handlers == was.handlers && |u.now.frames| == |was.frames|
            && (forall i | 0 <= i < |was.frames| ::
                  u.now.frames[i] == if cont.resume == Some(i) then was.frames[i].(returnTo := Some(|s.conts|)) else was.frames[i])
            && (forall id :: id in u.saved <==> id in s.saved && cont.owner != Some(id))
            && (forall id | id in u.saved :: u.saved[id] == s.saved[id])
  {
    hide Ok, Floor, SetIp;
    assert ContinuationOk(s.conts[k], s.conts);
    InvokeKeeps(s, k, c, ip);
  }

  /** Slot `slot` of the frame the continuation resumes. */
  predicate ResumedSlot(cont: Continuation, j: nat, slot: nat) {
    cont.resume.Some? && cont.resume.value < |cont.context.frames| && j == cont.context.frames[cont.resume.value].slots + slot
  }

  /** callcc keeps the whole context in a new continuation and the activation with its
      owner; its receiver starts on what lies below with the continuation as its only
      argument. Without a receiver the continuation is the result of the owner's call. */
  lemma CaptureHandsOver(s: State, self: Value, receiver: Option<Receiver>)
    requires Live(s) && Step(s, CallCC(self, receiver)).Next?
    ensures Ok(s.now) && s.now.frames[Root(s.now.frames)].slots <= |s.now.stack|
    ensures var u, root := Step(s, CallCC(self, receiver)).s, Root(s.now.frames);
            var owner, below := s.now.frames[root].closure, Under(s.now, root);
            && u.conts == s.conts + [Continuation(s.now, Some(owner), Some(root))]
            && (receiver.None? ==>
                  u.now == Pushed(below, self) && u.saved == s.saved[owner := Coroutine(Over(s.now, root), true)])
            && (receiver.Some? && receiver.value.closure !in s.saved && receiver.value.closure != owner ==>
                  && u.saved == s.saved[owner := Coroutine(Over(s.now, root), true)]
                  && u.now.stack == below.stack + [receiver.value.value, receiver.value.callName, self] + Nulls(8) + [receiver.value.passed]
                  && u.now.frames == below.frames + [Frame(receiver.value.closure, receiver.value.inline, 0, |below.stack|, None)]
                  && u.now.handlers == below.handlers)
  {
    hide Ok, ContinuationOk, Returns, Floor, Root, Under, Over, HandOver;
    RootInStack(s.now, Root(s.now.frames));
    CaptureValid(s);
    var t := CaptureStep(s);
    if receiver.None? { HandOverNone(t, self); } else { HandOverSome(t, self, receiver.value); }
  }

  function Nulls(n: nat): (r: seq<Value>)
    ensures |r| == n
  {
    seq(n, _ => Null)
  }

  lemma HandOverNone(t: State, self: Value)
    requires Valid(t) && HandOver(t, self, None).Next?
    ensures HandOver(t, self, None).s == t.(now := Pushed(t.now, self))
  {
  }

  lemma HandOverSome(t: State, self: Value, r: Receiver)
    requires Valid(t) && HandOver(t, self, Some(r)).Next?
    ensures HandOver(t, self, Some(r)).s.conts == t.conts
    ensures r.closure !in t.saved ==>
              HandOver(t, self, Some(r)).s ==
              t.(now := Slice(t.now.stack + [r.value, r.callName, self] + Nulls(8) + [r.passed],
                              t.now.frames + [Frame(r.closure, r.inline, 0, |t.now.stack|, None)], t.now.handlers))
  {
    hide Valid, Ok, ContinuationOk, Floor, ResumeStep;
    var now := Pushed(Pushed(t.now, r.value), self);
    var c := Call(1, false, r.passed);
    HandOverCalls(t, self, r);
    if r.closure !in t.saved {
      SameIp(now.frames);
      assert Arguments(now, c) == [self];
      assert Positional([self]) == [self] + Nulls(8);
      assert now.stack[..|t.now.stack| + 1] == t.now.stack + [r.value];
      assert t.now.stack + [r.value] + [r.callName] + ([self] + Nulls(8)) + [r.passed]
          == t.now.stack + [r.value, r.callName, self] + Nulls(8) + [r.passed];
    } else {
      ResumeKeepsConts(t.(now := now), r.closure, r.callName, c, if now.frames == [] then 0 else now.frames[|now.frames| - 1].ip);
    }
  }

  lemma ResumeKeepsConts(s: State, id: nat, callName: Value, c: Call, ip: nat)
    requires Valid(s) && Callee(s.now, c) >= Floor(s.now) && id in s.saved && ResumeStep(s, id, callName, c, ip).Next?
    ensures ResumeStep(s, id, callName, c, ip).s.conts == s.conts
  {
    hide Valid, Ok, Floor;
  }

  lemma SameIp(fs: seq<Frame>)
    ensures SetIp(fs, if fs == [] then 0 else fs[|fs| - 1].ip) == fs
  {
  }

  lemma HandOverCalls(t: State, self: Value, r: Receiver)
    requires Valid(t)
    ensures var now := Pushed(Pushed(t.now, r.value), self);
            && Valid(t.(now := now)) && Callee(now, Call(1, false, r.passed)) >= Floor(now)
            && HandOver(t, self, Some(r)) ==
               CallStep(t.(now := now), r.closure, r.inline, r.callName, Call(1, false, r.passed),
                        if now.frames == [] then 0 else now.frames[|now.frames| - 1].ip)
  {
    hide Ok, ContinuationOk, CallStep;
    PushedOk(t.now, r.value);
    PushedOk(Pushed(t.now, r.value), self);
    var now := Pushed(Pushed(t.now, r.value), self);
    NowValid(t, now);
    FloorBounds(t.now);
    SameFloor(t.now, now.stack);
  }

  /** A closure suspended by callcc and called again, after any run that leaves it alone, is
      back above its new caller like one that yielded, and its callcc has a result: the
      message if there is one, else the first argument, else null. */
  lemma CapturedResumes(s: State, self: Value, run: seq<Instr>, inline: bool, callName: Value, c: Call, ip: nat)
    requires Live(s) && Step(s, CallCC(self, None)).Next? && Live(Step(s, CallCC(self, None)).s)
    requires var y, id := Step(s, CallCC(self, None)).s, s.now.frames[Root(s.now.frames)].closure;
             && RunLeavesAlone(y, run, id) && Run(y, run).Next?
             && var t := Run(y, run).s; Live(t) && Step(t, CallClosure(id, inline, callName, c, ip)).Next?
    ensures Ok(s.now)
    ensures var root := Root(s.now.frames);
            var id, kept := s.now.frames[root].closure, Over(s.now, root);
            var t := Run(Step(s, CallCC(self, None)).s, run).s;
            var u := Step(t, CallClosure(id, inline, callName, c, ip)).s;
            && Callee(t.now, c) >= 0
            && var given := if c.hasMessage || c.args > 0 then t.now.stack[Callee(t.now, c) + 1] else Null;
               u.now == Place(Caller(t.now, c, ip),
                              Pushed(Reentered(kept, Message(t.now, c, callName), Arguments(t.now, c), c.passed), given))
  {
    hide Ok, ContinuationOk, Floor, Root, Under, Over, Place, Returns, Run, RunLeavesAlone, Caller, Rebound, Arguments, Message, Live, Step;
    CaptureHandsOver(s, self, None);
    var root := Root(s.now.frames);
    var id, kept := s.now.frames[root].closure, Over(s.now, root);
    var y := Step(s, CallCC(self, None)).s;
    RunKeepsSaved(y, run, id);
    CaptureResumes(Run(y, run).s, id, kept, inline, callName, c, ip);
  }

  lemma CaptureResumes(t: State, id: nat, kept: Slice, inline: bool, callName: Value, c: Call, ip: nat)
    requires Live(t) && id in t.saved && t.saved[id] == Coroutine(kept, true)
    requires Step(t, CallClosure(id, inline, callName, c, ip)).Next?
    ensures Callee(t.now, c) >= 0
    ensures var given := if c.hasMessage || c.args > 0 then t.now.stack[Callee(t.now, c) + 1] else Null;
            Step(t, CallClosure(id, inline, callName, c, ip)).s.now ==
            Place(Caller(t.now, c, ip), Pushed(Reentered(kept, Message(t.now, c, callName), Arguments(t.now, c), c.passed), given))
  {
    hide Valid, Ok, Floor, Caller, Rebound, Place, Reentered;
    var message, args := Message(t.now, c, callName), Arguments(t.now, c);
    var given := if c.hasMessage || c.args > 0 then t.now.stack[Callee(t.now, c) + 1] else Null;
    ResumeIs(t, id, callName, c, ip);
    ReboundPlaced(Caller(t.now, c, ip), kept, message, args, c.passed);
    PlacedStack(Caller(t.now, c, ip), kept);
    PushPlaced(Caller(t.now, c, ip), Reentered(kept, message, args, c.passed), given);
  }

  // ----- an invoker that is lost -----

  const PASSED := Object(0)

  /** What an activation without arguments has above its closure. */
  const SLOTS := [Null] + Positional([]) + [PASSED]

  const NONE := Call(0, false, PASSED)

  /** Pushing an operand. */
  lemma PushStep(s: State, v: Value, ip: nat)
    requires Live(s)
    ensures Step(s, Do(Operands(0, [v], ip)))
         == Next(s.(now := s.now.(stack := s.now.stack + [v], frames := SetIp(s.now.frames, ip))))
    ensures Live(Step(s, Do(Operands(0, [v], ip))).s)
  {
    StepLive(s, Do(Operands(0, [v], ip)));
    FloorBounds(s.now);
    assert s.now.stack[..|s.now.stack|] == s.now.stack;
  }

  /** Entering a closure without arguments, outside of a try. */
  lemma EnterStep(s: State, id: nat, inline: bool, below: seq<Value>, callee: Value, ip: nat)
    requires Live(s) && id !in s.saved && s.now.handlers == [] && s.now.stack == below + [callee]
    requires s.now.frames[|s.now.frames| - 1].slots + FRAME_SLOTS <= |below| <= 1000 && |s.now.frames| < MAX_FRAMES
    ensures Step(s, CallClosure(id, inline, Null, NONE, ip))
         == Next(s.(now := Slice(below + [callee] + SLOTS, SetIp(s.now.frames, ip) + [Frame(id, inline, 0, |below|, None)], [])))
    ensures Live(Step(s, CallClosure(id, inline, Null, NONE, ip)).s)
  {
    StepLive(s, CallClosure(id, inline, Null, NONE, ip));
    hide Valid, SetIp;
    var t := s.now.(frames := SetIp(s.now.frames, ip));
    assert Arguments(t, NONE) == [];
    assert s.now.stack[..|below| + 1] == s.now.stack;
    assert below + [callee] + [Null] + Positional([]) + [PASSED] == below + [callee] + SLOTS;
  }

  /** Capturing in an ordinary closure called by another one, without a receiver. */
  lemma CaptureStepIs(s: State, below: seq<Value>, own: seq<Value>, f: Frame, g: Frame, self: Value)
    requires Live(s) && s.now == Slice(below + own, [f, g], []) && !g.inline && g.slots == |below|
    ensures Ok(s.now) && Step(s, CallCC(self, None)).Next? && Live(Step(s, CallCC(self, None)).s)
    ensures var t := Step(s, CallCC(self, None)).s;
            && t.now == Slice(below + [self], [f], []) && t.saved.Keys == s.saved.Keys + {g.closure}
            && t.conts == s.conts + [Continuation(s.now, Some(g.closure), Some(1))]
  {
    hide Ok, Over, ContinuationOk, Returns;
    CaptureValid(s);
    RootIs(s.now.frames, 1);
    assert (below + own)[..|below|] == below && [f, g][..1] == [f];
    StepLive(s, CallCC(self, None));
  }

  /** A program calls closure 1, which captures its continuation (object 3) without a
      receiver. The program gets the continuation as the result of its call, and invokes it
      at 4. Closure 1, resumed, calls inline code, which leaves it with a result. */
  const CALLED: seq<Instr> := [Do(Operands(0, [Object(2)], 1)), CallClosure(1, false, Null, NONE, 2), CallCC(Object(3), None)]

  const INVOKED := Invoke(0, NONE, 4)

  const INSIDE: seq<Instr> := [Do(Operands(0, [Object(4)], 1)), CallClosure(2, true, Null, NONE, 2), Do(Operands(0, [Object(5)], 1))]

  lemma RunThree(s: State, i: Instr, j: Instr, k: Instr)
    requires Live(s) && Step(s, i).Next? && Live(Step(s, i).s) && Step(Step(s, i).s, j).Next? && Live(Step(Step(s, i).s, j).s)
    requires Step(Step(Step(s, i).s, j).s, k).Next?
    ensures Run(s, [i, j, k]) == Step(Step(Step(s, i).s, j).s, k)
  {
    hide Step, Live;
    assert [i, j, k][1..] == [j, k] && [j, k][1..] == [k] && [k][1..] == [];
    var t, u := Step(s, i).s, Step(Step(s, i).s, j).s;
    assert Run(u, [k]) == Step(u, k) by { StepLive(u, k); }
    assert Run(t, [j, k]) == Run(u, [k]);
  }

  /** The state in which the program, with `base` on its stack, invokes the continuation. */
  lemma Captures(begun: State, base: seq<Value>)
    requires Live(begun) && begun == State(Slice(base, [Frame(0, false, 0, 0, None)], []), map[], []) && |base| == FRAME_SLOTS
    ensures Run(begun, CALLED).Next? && Live(Run(begun, CALLED).s)
    ensures var s := Run(begun, CALLED).s;
            && s.now == Slice(base + [Object(3)], [Frame(0, false, 2, 0, None)], []) && s.saved.Keys == {1}
            && s.conts == [Continuation(Slice(base + ([Object(2)] + SLOTS), [Frame(0, false, 2, 0, None), Frame(1, false, 0, 12, None)], []),
                                        Some(1), Some(1))]
  {
    hide Step, Live, Run, Ok;
    PushStep(begun, Object(2), 1);
    var s1 := Step(begun, CALLED[0]).s;
    EnterStep(s1, 1, false, base, Object(2), 2);
    var s2 := Step(s1, CALLED[1]).s;
    assert base + [Object(2)] + SLOTS == base + ([Object(2)] + SLOTS);
    CaptureStepIs(s2, base, [Object(2)] + SLOTS, Frame(0, false, 2, 0, None), Frame(1, false, 0, 12, None), Object(3));
    RunThree(begun, CALLED[0], CALLED[1], CALLED[2]);
  }

  lemma InvokesOld(s: State, base: seq<Value>)
    requires Live(s) && |base| == FRAME_SLOTS && s.now == Slice(base + [Object(3)], [Frame(0, false, 2, 0, None)], []) && s.saved.Keys == {1}
    requires s.conts == [Continuation(Slice(base + ([Object(2)] + SLOTS), [Frame(0, false, 2, 0, None), Frame(1, false, 0, 12, None)], []),
                                      Some(1), Some(1))]
    ensures Step(s, INVOKED).Next? && Live(Step(s, INVOKED).s)
    ensures var u := Step(s, INVOKED).s;
            && u.now == Slice(base + ([Object(2)] + SLOTS + [Null]), [Frame(0, false, 2, 0, None), Frame(1, false, 0, 12, Some(1))], [])
            && u.saved == map[]
  {
    hide Ok, SetIp, ContinuationOk;
    var k := s.conts[0];
    var r := Restored(k, 1, Null, PASSED);
    assert r.stack == base + ([Object(2)] + SLOTS);
    assert r.frames == [Frame(0, false, 2, 0, None), Frame(1, false, 0, 12, Some(1))];
    assert r.stack + [Null] == base + ([Object(2)] + SLOTS + [Null]);
    StepLive(s, INVOKED);
  }

  lemma LeavesInline(u: State, base: seq<Value>)
    requires Live(u) && |base| == FRAME_SLOTS && u.saved == map[]
    requires u.now == Slice(base + ([Object(2)] + SLOTS + [Null]), [Frame(0, false, 2, 0, None), Frame(1, false, 0, 12, Some(1))], [])
    ensures Run(u, INSIDE).Next? && Live(Run(u, INSIDE).s)
    ensures var after := Step(Run(u, INSIDE).s, InlineReturn);
            after.Next? && after.s.now == Slice(base + [Object(5)], [Frame(0, false, 2, 0, None)], [])
  {
    hide Step, Live, Run, Ok;
    PushStep(u, Object(4), 1);
    var u1 := Step(u, INSIDE[0]).s;
    var below := base + ([Object(2)] + SLOTS + [Null]);
    EnterStep(u1, 2, true, below, Object(4), 2);
    var u2 := Step(u1, INSIDE[1]).s;
    PushStep(u2, Object(5), 1);
    RunThree(u, INSIDE[0], INSIDE[1], INSIDE[2]);
    InlineLeaves(Step(u2, INSIDE[2]).s, base, [Object(2)] + SLOTS + [Null] + [Object(4)] + SLOTS, Object(5));
  }

  lemma InlineLeaves(v: State, base: seq<Value>, rest: seq<Value>, result: Value)
    requires Live(v) && |v.now.frames| == 3 && !v.now.frames[1].inline && v.now.frames[2].inline && v.now.frames[1].slots == |base|
    requires v.now.handlers == [] && v.now.stack == base + rest + [result] && |base| + |rest| > v.now.frames[2].slots + 11
    ensures Step(v, InlineReturn).Next?
    ensures Step(v, InlineReturn).s.now == Slice(base + [result], v.now.frames[..1], [])
  {
    hide ContinuationOk, Returns;
    RootIs(v.now.frames, 1);
    PoppedOk(v.now);
    assert v.now.stack[..|v.now.stack| - 1][..|base|] == base;
  }

  /** The program goes on at 2, behind its first call, and not at 4: it is forgotten that it
      invoked anything. */
  lemma InvokerLost(program: Value)
    ensures var begun := CallStep(Idle(program), 0, false, Null, NONE, 0);
            && begun.Next? && Live(begun.s) && Run(begun.s, CALLED).Next? && Live(Run(begun.s, CALLED).s)
            && var s := Run(begun.s, CALLED).s;
               && Step(s, INVOKED).Next? && Live(Step(s, INVOKED).s) && Run(Step(s, INVOKED).s, INSIDE).Next?
               && Live(Run(Step(s, INVOKED).s, INSIDE).s)
               && var after := Step(Run(Step(s, INVOKED).s, INSIDE).s, InlineReturn);
                  && after.Next? && SetIp(s.now.frames, 4) == [Frame(0, false, 4, 0, None)]
                  && after.s.now == Slice([program] + SLOTS + [Object(5)], [Frame(0, false, 2, 0, None)], [])
  {
    hide Step, Live, Run;
    LoopStarts(program, 0, Null, PASSED);
    var base := [program] + SLOTS;
    assert [program, Null] + Positional([]) + [PASSED] == base;
    var begun := CallStep(Idle(program), 0, false, Null, NONE, 0).s;
    Captures(begun, base);
    var s := Run(begun, CALLED).s;
    InvokesOld(s, base);
    LeavesInline(Step(s, INVOKED).s, base);
  }
}
