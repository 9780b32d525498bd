/** What a call leaves untouched: from entering a closure, or resuming a suspended one, to
    the moment it gives its result, whatever runs in between. */
module Calls {
  import opened Values
  import opened Control
  import opened ControlSteps
  import opened Relocation
  import opened Coroutines
  import opened ControlRuns
  import opened Activations

  /** The instruction ends the activation whose root is frame `n`: its frame returns or is
      aborted, or it yields or returns from inline code it called. */
  predicate Gives(t: Slice, i: Instr, n: nat)
    requires t.frames != []
  {
    match i
    case Return => |t.frames| == n + 1 && t.frames[n].returnTo.None?
    case Abort(_) => |t.frames| == n + 1
    case Yield => Root(t.frames) == n
    case InlineReturn => Root(t.frames) == n
    case _ => false
  }

  /** What a call of closure `id` puts above its caller. */
  function Activation(s: State, id: nat, inline: bool, callName: Value, c: Call): Slice
    requires Callee(s.now, c) >= 0
  {
    var message, args := Message(s.now, c, callName), Arguments(s.now, c);
    if id in s.saved then
      var result := if c.hasMessage then message else if args != [] then args[0] else Null;
      var ready := Reentered(s.saved[id].slice, message, args, c.passed);
      if s.saved[id].needsResult then Pushed(ready, result) else ready
    else
      Slice([s.now.stack[Callee(s.now, c)], message] + Positional(args) + [c.passed], [Frame(id, inline, 0, 0, None)], [])
  }

  /** Either way the machine is the caller with the activation on top. */
  lemma CallPlaces(s: State, id: nat, inline: bool, callName: Value, c: Call, ip: nat)
    requires Live(s) && Callee(s.now, c) >= Floor(s.now) && CallStep(s, id, inline, callName, c, ip).Next?
    ensures var u := CallStep(s, id, inline, callName, c, ip).s;
            var a := State(Activation(s, id, inline, callName, c), u.saved, u.conts);
            Live(u) && Live(a) && Placed(Caller(s.now, c, ip), u, a)
  {
    hide Ok, ContinuationOk, Floor, SetIp, Arguments, Message;
    CallLive(s, id, inline, callName, c, ip);
    CallerOk(s.now, c, ip);
    if id in s.saved {
      ResumePlaces(s, id, callName, c, ip);
    } else {
      EnterPlaces(s, id, inline, callName, c, ip);
    }
    var u := CallStep(s, id, inline, callName, c, ip).s;
    var a := Activation(s, id, inline, callName, c);
    assert Returns(a.frames, u.conts);
    NowValid(u, a);
  }

  lemma EnterPlaces(s: State, id: nat, inline: bool, callName: Value, c: Call, ip: nat)
    requires Live(s) && Callee(s.now, c) >= Floor(s.now) && id !in s.saved && CallStep(s, id, inline, callName, c, ip).Next?
    ensures var u, a := CallStep(s, id, inline, callName, c, ip).s, Activation(s, id, inline, callName, c);
            u.now == Place(Caller(s.now, c, ip), a) && Rooted(a) && Returns(a.frames, u.conts)
  {
    hide Valid, Ok, Floor, SetIp;
    var at := Callee(s.now, c);
    var message, args := Message(s.now, c, callName), Arguments(s.now, c);
    var stack := s.now.stack;
    var t := s.now.(frames := SetIp(s.now.frames, ip));
    assert Message(t, c, callName) == message && Arguments(t, c) == args;
    assert stack[..at + 1] == stack[..at] + [stack[at]];
    var own := [stack[at], message] + Positional(args) + [c.passed];
    assert stack[..at + 1] + [message] + Positional(args) + [c.passed] == stack[..at] + own;
    var f := Frame(id, inline, 0, 0, None);
    SingleFrame(own, f);
    assert Control.Raise([f], at) == [f.(slots := at)];
    assert s.now.handlers + RaiseHandlers([], |s.now.frames|, at) == s.now.handlers;
  }

  lemma SingleFrame(stack: seq<Value>, f: Frame)
    requires f.slots == 0 && |stack| == FRAME_SLOTS
    ensures Rooted(Slice(stack, [f], []))
  {
  }

  lemma ResumePlaces(s: State, id: nat, callName: Value, c: Call, ip: nat)
    requires Live(s) && Callee(s.now, c) >= Floor(s.now) && id in s.saved && ResumeStep(s, id, callName, c, ip).Next?
    ensures var u, a := ResumeStep(s, id, callName, c, ip).s, Activation(s, id, false, callName, c);
            u.now == Place(Caller(s.now, c, ip), a) && Rooted(a) && Returns(a.frames, u.conts)
  {
    var co, message, args := s.saved[id], Message(s.now, c, callName), Arguments(s.now, c);
    assert Rooted(co.slice) && Returns(co.slice.frames, s.conts);
    hide Valid, Ok, Floor, Caller, Arguments, Message, Place, Rebound;
    var result := if c.hasMessage then message else if args != [] then args[0] else Null;
    var below := Caller(s.now, c, ip);
    var ready := Reentered(co.slice, message, args, c.passed);
    ResumeIs(s, id, callName, c, ip);
    ReboundPlaced(below, co.slice, message, args, c.passed);
    Sizes(below, co.slice);
    PlacedStack(below, co.slice);
    ReboundSlots(co.slice, message, args, c.passed);
    PushPlaced(below, ready, result);
    PushedOk(ready, result);
  }

  lemma GivesBack(under: Slice, p: State, a: State, leave: Instr)
    requires Live(p) && Live(a) && Placed(under, p, a) && Gives(p.now, leave, |under.frames|) && Step(p, leave).Next?
    ensures p.now.stack != []
    ensures Step(p, leave).s.now == Pushed(under, if leave.Abort? then Null else Top(p.now))
  {
    hide Ok, Place, Floor, Root, Trim, Over;
    RootInStack(a.now, 0);
    NotEmpty(p.now);
    UnderRoot(under, a.now);
    if leave.Yield? || leave.InlineReturn? {
      PopWithin(under, p, a);
      UnderRoot(under, Popped(a.now));
      PoppedOk(p.now);
    }
  }

  /** A call, whether it enters the closure or resumes it, and whatever runs until it gives
      its result: calls, other coroutines, captures, exceptions, handlers. By a return, a
      yield, an inline return or an abort the caller gets its frames and handlers back, and
      its stack with callee and arguments replaced by the result. */
  lemma CallRestoresCaller(s: State, id: nat, inline: bool, callName: Value, c: Call, ip: nat, run: seq<Instr>, leave: Instr)
    requires Live(s) && Step(s, CallClosure(id, inline, callName, c, ip)).Next?
    requires var u := Step(s, CallClosure(id, inline, callName, c, ip)).s;
             && Live(u) && RunWithin(u, run, |s.now.frames|) && Run(u, run).Next?
             && var v := Run(u, run).s;
                Live(v) && Gives(v.now, leave, |s.now.frames|) && Step(v, leave).Next?
    ensures var v := Run(Step(s, CallClosure(id, inline, callName, c, ip)).s, run).s;
            && Callee(s.now, c) >= 0 && v.now.stack != []
            && Step(v, leave).s.now ==
               Slice(s.now.stack[..Callee(s.now, c)] + [if leave.Abort? then Null else Top(v.now)],
                     SetIp(s.now.frames, ip), s.now.handlers)
  {
    CalleeAboveFloor(s, id, inline, callName, c, ip);
    hide Live, Placed, Run, RunWithin, Gives, Floor, SetIp, Step, Activation;
    var u := CallStep(s, id, inline, callName, c, ip).s;
    var under := Caller(s.now, c, ip);
    var a := State(Activation(s, id, inline, callName, c), u.saved, u.conts);
    CallPlaces(s, id, inline, callName, c, ip);
    CallerFrames(s.now, c, ip);
    RunInside(under, u, a, run);
    GivesBack(under, Run(u, run).s, Run(a, run).s, leave);
  }

  lemma CalleeAboveFloor(s: State, id: nat, inline: bool, callName: Value, c: Call, ip: nat)
    requires Live(s) && Step(s, CallClosure(id, inline, callName, c, ip)).Next?
    ensures Callee(s.now, c) >= Floor(s.now)
    ensures Step(s, CallClosure(id, inline, callName, c, ip)) == CallStep(s, id, inline, callName, c, ip)
  {
  }

  lemma CallerFrames(s: Slice, c: Call, ip: nat)
    requires Callee(s, c) >= 0
    ensures |Caller(s, c, ip).frames| == |s.frames|
  {
  }

  /** What a closure finds on entry: itself, the message, nine positional arguments padded
      with null, and the array of all arguments; nothing above. */
  lemma EnteredSlots(s: Slice, closure: nat, inline: bool, callName: Value, call: Call)
    requires Callee(s, call) >= 0
    ensures var at := Callee(s, call);
            var t := Entered(s, closure, inline, callName, call);
            && |t.stack| == at + FRAME_SLOTS && t.stack[..at + 1] == s.stack[..at + 1]
            && t.stack[at + 1] == (if call.hasMessage then s.stack[at + 1] else callName)
            && (forall j | at + 2 <= j < at + 11 ::
                  t.stack[j] == if j - at - 2 < call.args then s.stack[|s.stack| - call.args + (j - at - 2)] else Null)
            && t.stack[at + 11] == call.passed
  {
    hide Floor;
    var at, args := Callee(s, call), Arguments(s, call);
    var t := Entered(s, closure, inline, callName, call);
    assert t.stack[..at + 1] == s.stack[..at + 1];
    forall j | at + 2 <= j < at + 11
      ensures t.stack[j] == if j - at - 2 < call.args then s.stack[|s.stack| - call.args + (j - at - 2)] else Null
    {
      assert t.stack[j] == Positional(args)[j - at - 2];
    }
  }
}
