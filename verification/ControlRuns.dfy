/** Whole runs of the control state: what holds in every reachable state, what a resumed
    activation finds, and why invoking a continuation behaves as a call. */
module ControlRuns {
  import opened Values
  import opened Control
  import opened ControlSteps
  import opened Relocation
  import opened Coroutines

  /** The closure a callcc hands its continuation to; `self` is the continuation's value. */
  datatype Receiver = Receiver(value: Value, closure: nat, inline: bool, callName: Value, passed: Value)

  datatype Instr =
    | Do(local: Local)                                  // operands, slots, handlers
    | CallClosure(closure: nat, inline: bool, callName: Value, call: Call, ip: nat)
    | Invoke(continuation: nat, call: Call, ip: nat)
    | CallCC(self: Value, receiver: Option<Receiver>)
    | Yield | Return | InlineReturn | Raise | Abort(flowExit: bool)

  /** OP_CALLCC behind the capture: the receiver is called with the continuation, or the
      continuation is the result. Without a frame left there must be a receiver. */
  function HandOver(t: State, self: Value, receiver: Option<Receiver>): Outcome
    requires Valid(t)
  {
    match receiver
    case None => if t.now.frames == [] then Failed else Next(t.(now := Pushed(t.now, self)))
    case Some(r) =>
      PushedOk(t.now, r.value);
      PushedOk(Pushed(t.now, r.value), self);
      var now := Pushed(Pushed(t.now, r.value), self);
      NowValid(t, now);
      FloorBounds(t.now);
      CallStep(t.(now := now), r.closure, r.inline, r.callName, Call(1, false, r.passed),
               if now.frames == [] then 0 else now.frames[|now.frames| - 1].ip)
  }

  /** The state is one an instruction can start in. */
  predicate Live(s: State) { Valid(s) && s.now.frames != [] }

  /** One instruction of the run loop. An instruction compiled code does not contain at
      this point, because it would reach below its operands, fails. */
  function Step(s: State, i: Instr): Outcome
    requires Live(s)
  {
    match i
    case Do(local) =>
      (match LocalStep(s.now, local)
       case None => Failed
       case Some(now) => Next(s.(now := now)))
    case CallClosure(closure, inline, callName, call, ip) =>
      if Callee(s.now, call) < Floor(s.now) then Failed else CallStep(s, closure, inline, callName, call, ip)
    case Invoke(k, call, ip) =>
      if Callee(s.now, call) < Floor(s.now) || k >= |s.conts| then Failed else InvokeStep(s, k, call, ip)
    case CallCC(self, receiver) => CaptureValid(s); HandOver(CaptureStep(s), self, receiver)
    case Yield => if |s.now.stack| <= Floor(s.now) then Failed else YieldStep(s)
    case Return => if |s.now.stack| <= Floor(s.now) then Failed else ReturnStep(s)
    case InlineReturn => if |s.now.stack| <= Floor(s.now) then Failed else InlineReturnStep(s)
    case Raise => if |s.now.stack| <= Floor(s.now) then Failed else ThrowStep(s)
    case Abort(flowExit) => AbortStep(s, flowExit)
  }

  lemma HandOverLive(t: State, self: Value, receiver: Option<Receiver>)
    requires Valid(t)
    ensures var o := HandOver(t, self, receiver); o.Next? ==> Live(o.s)
  {
    hide Ok, ContinuationOk;
    match receiver
    case None =>
      PushedOk(t.now, self);
      NowValid(t, Pushed(t.now, self));
    case Some(r) =>
      PushedOk(t.now, r.value);
      PushedOk(Pushed(t.now, r.value), self);
      var u := t.(now := Pushed(Pushed(t.now, r.value), self));
      NowValid(t, u.now);
      FloorBounds(t.now);
      var ip := if u.now.frames == [] then 0 else u.now.frames[|u.now.frames| - 1].ip;
      CallLive(u, r.closure, r.inline, r.callName, Call(1, false, r.passed), ip);
  }

  lemma CallLive(s: State, id: nat, inline: bool, callName: Value, c: Call, ip: nat)
    requires Valid(s) && Callee(s.now, c) >= Floor(s.now)
    ensures var o := CallStep(s, id, inline, callName, c, ip); o.Next? ==> Live(o.s)
  {
    hide Valid, Ok, Rebound, SetIp;
    CallValid(s, id, inline, callName, c, ip);
    if id in s.saved { RootedSaved(s, id); PlaceView(Caller(s.now, c, ip), s.saved[id].slice); }
  }

  lemma RootedSaved(s: State, id: nat)
    requires Valid(s) && id in s.saved
    ensures Rooted(s.saved[id].slice) && s.saved[id].slice.frames != []
  {
  }

  /** Handlers never decrease in frame count, none belongs to a frame that is gone, and
      every stack offset is in range: one step keeps all of it. */
  lemma StepLive(s: State, i: Instr)
    requires Live(s) && Step(s, i).Next?
    ensures Live(Step(s, i).s)
  {
    match i
    case Do(local) => DoLive(s, local);
    case CallClosure(closure, inline, callName, call, ip) => CallLive(s, closure, inline, callName, call, ip);
    case Invoke(k, call, ip) => InvokeLive(s, k, call, ip);
    case CallCC(self, receiver) =>
      CaptureValid(s);
      HandOverLive(CaptureStep(s), self, receiver);
    case Yield => YieldLive(s);
    case Return => ReturnLive(s);
    case InlineReturn => InlineReturnValid(s);
    case Raise => RaiseLive(s);
    case Abort(flowExit) => AbortValid(s, flowExit);
  }

  lemma DoLive(s: State, local: Local)
    requires Live(s) && Step(s, Do(local)).Next?
    ensures Live(Step(s, Do(local)).s)
  {
    hide Ok, ContinuationOk, LocalStep, Floor;
    LocalKeeps(s.now, local);
    var now := LocalStep(s.now, local).value;
    LocalReturns(s, local);
    NowValid(s, now);
  }

  lemma LocalReturns(s: State, local: Local)
    requires Live(s) && Step(s, Do(local)).Next?
    ensures Returns(LocalStep(s.now, local).value.frames, s.conts)
  {
    hide Ok, Floor;
  }

  lemma InvokeLive(s: State, k: nat, c: Call, ip: nat)
    requires Live(s) && Step(s, Invoke(k, c, ip)).Next?
    ensures Live(Step(s, Invoke(k, c, ip)).s)
  {
    assert ContinuationOk(s.conts[k], s.conts);
    hide Valid, Ok;
    InvokeValid(s, k, c, ip);
  }

  lemma YieldLive(s: State)
    requires Live(s) && Step(s, Yield).Next?
    ensures Live(Step(s, Yield).s)
  {
    YieldValid(s);
    hide Valid, Suspended, Floor;
  }

  lemma ReturnLive(s: State)
    requires Live(s) && Step(s, Return).Next?
    ensures Live(Step(s, Return).s)
  {
    ReturnValid(s);
    var f := s.now.frames[|s.now.frames| - 1];
    if f.returnTo.Some? { assert ContinuationOk(s.conts[f.returnTo.value], s.conts); }
    hide Ok, Floor, Returned;
  }

  lemma RaiseLive(s: State)
    requires Live(s) && Step(s, Raise).Next?
    ensures Live(Step(s, Raise).s)
  {
    ThrowValid(s);
    CaughtOk(s.now, Top(s.now));
    hide Valid, Ok, Floor;
  }

  /** The machine in front of the run loop: nothing but the program's closure. */
  function Idle(program: Value): State { State(Slice([program], [], []), map[], []) }

  /** Calling it gives the state in which the loop starts, and that state is live. */
  lemma LoopStarts(program: Value, id: nat, callName: Value, passed: Value)
    ensures Valid(Idle(program)) && Callee(Idle(program).now, Call(0, false, passed)) >= Floor(Idle(program).now)
    ensures var o := CallStep(Idle(program), id, false, callName, Call(0, false, passed), 0);
            && o.Next? && Live(o.s) && o.s.saved == map[] && o.s.conts == []
            && o.s.now == Slice([program, callName] + Positional([]) + [passed], [Frame(id, false, 0, 0, None)], [])
  {
    var s, c := Idle(program), Call(0, false, passed);
    assert Arguments(s.now, c) == [];
    assert s.now.stack[..1] + [callName] + Positional([]) + [passed] == [program, callName] + Positional([]) + [passed];
    CallLive(s, id, false, callName, c, 0);
  }

  /** A run; it ends early when the loop finishes or fails. */
  function Run(s: State, run: seq<Instr>): Outcome
    requires Live(s)
    decreases |run|
  {
    if run == [] then Next(s)
    else
      match Step(s, run[0])
      case Next(t) => StepLive(s, run[0]); Run(t, run[1..])
      case other => other
  }

  /** Every state a run reaches from a live state is live. */
  lemma {:induction false} RunLive(s: State, run: seq<Instr>)
    requires Live(s) && Run(s, run).Next?
    ensures Live(Run(s, run).s)
    decreases |run|
  {
    hide Step, Live;
    if run != [] {
      StepLive(s, run[0]);
      RunLive(Step(s, run[0]).s, run[1..]);
    }
  }

  /** In particular: the handlers of every reachable state are sorted by frame, and none
      outlives its frame. */
  lemma HandlersOfRun(s: State, run: seq<Instr>)
    requires Live(s) && Run(s, run).Next?
    ensures var now := Run(s, run).s.now;
            && (forall a, b | 0 <= a < b < |now.handlers| :: now.handlers[a].frameCount <= now.handlers[b].frameCount)
            && (forall a | 0 <= a < |now.handlers| ::
                  1 <= now.handlers[a].frameCount <= |now.frames| && now.handlers[a].stackCount <= |now.stack|)
  {
    RunLive(s, run);
    hide Run;
    var now := Run(s, run).s.now;
    forall a | 0 <= a < |now.handlers|
      ensures 1 <= now.handlers[a].frameCount <= |now.frames| && now.handlers[a].stackCount <= |now.stack|
    {
      assert HandlerOk(now.handlers[a], now.frames, |now.stack|);
    }
  }

  // ----- resuming -----

  /** The activation a yield keeps, with the fixed slots of its root rebound. */
  function Reentered(kept: Slice, message: Value, args: seq<Value>, passed: Value): Slice {
    kept.(stack := Rebound(kept.stack, 0, message, args, passed))
  }

  /** What an inline return leaves: the frames below the innermost frame that is not inline,
      with the result, and what that frame's closure kept is dropped. */
  lemma InlineReturnLeaves(s: State)
    requires Live(s) && Step(s, InlineReturn).Next?
    ensures |s.now.stack| > Floor(s.now) && Ok(Popped(s.now))
    ensures var root := Root(s.now.frames);
            && s.now.frames[root].slots <= |Popped(s.now).stack|
            && Step(s, InlineReturn).s ==
               State(Pushed(Under(Popped(s.now), root), Top(s.now)), s.saved - {s.now.frames[root].closure}, s.conts)
  {
    hide Ok, ContinuationOk, Floor, Root, Under, Returns;
    PoppedOk(s.now);
    RootInStack(Popped(s.now), Root(s.now.frames));
  }

  /** The instruction neither resumes closure `id` nor captures or drops its activation. */
  predicate LeavesAlone(s: State, i: Instr, id: nat)
    requires s.now.frames != []
  {
    var owner := s.now.frames[Root(s.now.frames)].closure;
    match i
    case CallClosure(closure, _, _, _, _) => closure != id
    case Invoke(k, _, _) => k < |s.conts| ==> s.conts[k].owner != Some(id)
    case CallCC(_, receiver) => owner != id && (receiver.Some? ==> receiver.value.closure != id)
    case Yield => owner != id
    case InlineReturn => owner != id
    case _ => true
  }

  predicate RunLeavesAlone(s: State, run: seq<Instr>, id: nat)
    requires Live(s)
    decreases |run|
  {
    run != [] ==>
      && LeavesAlone(s, run[0], id)
      && (Step(s, run[0]).Next? ==> (StepLive(s, run[0]); RunLeavesAlone(Step(s, run[0]).s, run[1..], id)))
  }

  lemma StepKeepsSaved(s: State, i: Instr, id: nat)
    requires Live(s) && Step(s, i).Next? && LeavesAlone(s, i, id) && id in s.saved
    ensures id in Step(s, i).s.saved && Step(s, i).s.saved[id] == s.saved[id]
  {
    hide Valid, Ok, LocalStep, Floor, Returned, Caught, Place, Restored, Entered, Rebound, Under, Over, Root, Caller;
    if i.CallCC? { CaptureValid(s); }
  }

  /** What a closure keeps stays as it is until it is called or captured again. */
  lemma {:induction false} RunKeepsSaved(s: State, run: seq<Instr>, id: nat)
    requires Live(s) && Run(s, run).Next? && RunLeavesAlone(s, run, id) && id in s.saved
    ensures id in Run(s, run).s.saved && Run(s, run).s.saved[id] == s.saved[id]
    decreases |run|
  {
    hide Step, Live, LeavesAlone;
    if run != [] {
      StepLive(s, run[0]);
      StepKeepsSaved(s, run[0], id);
      RunKeepsSaved(Step(s, run[0]).s, run[1..], id);
    }
  }

  /** What a yield leaves: the frames below the activation with the yielded value, and the
      activation itself, which in its old place would be the old machine. */
  lemma YieldKeeps(s: State)
    requires Live(s) && Step(s, Yield).Next?
    ensures |s.now.stack| > Floor(s.now) && Ok(Popped(s.now))
    ensures var root := Root(s.now.frames);
            var id, kept := s.now.frames[root].closure, Over(Popped(s.now), root);
            var y := Step(s, Yield).s;
            && id in y.saved && y.saved[id] == Coroutine(kept, false) && y.conts == s.conts
            && s.now.frames[root].slots <= |Popped(s.now).stack|
            && y.now == Pushed(Under(Popped(s.now), root), Top(s.now))
            && Place(Under(Popped(s.now), root), kept) == Popped(s.now)
  {
    hide Ok, ContinuationOk, Floor, Root, Under, Over, Place, Returns;
    PoppedOk(s.now);
    var root := Root(s.now.frames);
    RootInStack(Popped(s.now), root);
    CutAndPlace(Popped(s.now), root);
  }

  /** A closure that yields in state `s` and is called again after any run that leaves it
      alone, by whatever caller: the caller stays below, and above it lies the activation of
      `s`, relocated, with only the slots 1, 2 to 10 and 11 of its root rebound. */
  lemma ResumeRestores(s: State, run: seq<Instr>, inline: bool, callName: Value, c: Call, ip: nat)
    requires Live(s) && Step(s, Yield).Next? && Live(Step(s, Yield).s)
    requires var y, id := Step(s, Yield).s, s.now.frames[Root(s.now.frames)].closure;
             && RunLeavesAlone(y, run, id) && Run(y, run).Next?
             && var t := Run(y, run).s; Live(t) && Step(t, CallClosure(id, inline, callName, c, ip)).Next?
    ensures Ok(Popped(s.now))
    ensures var root := Root(s.now.frames);
            var id, kept := s.now.frames[root].closure, Over(Popped(s.now), root);
            var t := Run(Step(s, Yield).s, run).s;
            var u := Step(t, CallClosure(id, inline, callName, c, ip)).s;
            && Callee(t.now, c) >= 0
            && u.now == Place(Caller(t.now, c, ip), Reentered(kept, Message(t.now, c, callName), Arguments(t.now, c), c.passed))
            && s.now.frames[root].slots <= |Popped(s.now).stack|
            && Place(Under(Popped(s.now), root), kept) == Popped(s.now)
            && id !in u.saved && u.conts == t.conts
  {
    hide Ok, ContinuationOk, Floor, Root, Under, Over, Place, Returns, Run, RunLeavesAlone, Caller, Rebound, Arguments, Message, Live, Step;
    YieldKeeps(s);
    var root := Root(s.now.frames);
    var id, kept := s.now.frames[root].closure, Over(Popped(s.now), root);
    var y := Step(s, Yield).s;
    RunKeepsSaved(y, run, id);
    CallResumes(Run(y, run).s, id, kept, inline, callName, c, ip);
  }

  lemma CallResumes(t: State, id: nat, kept: Slice, inline: bool, callName: Value, c: Call, ip: nat)
    requires Live(t) && id in t.saved && t.saved[id] == Coroutine(kept, false)
    requires Step(t, CallClosure(id, inline, callName, c, ip)).Next?
    ensures Callee(t.now, c) >= 0
    ensures var u := Step(t, CallClosure(id, inline, callName, c, ip)).s;
            && u.now == Place(Caller(t.now, c, ip), Reentered(kept, Message(t.now, c, callName), Arguments(t.now, c), c.passed))
            && id !in u.saved && u.conts == t.conts
  {
    hide Valid, Ok, Floor, Caller, Rebound, Arguments, Message;
    ReboundPlaced(Caller(t.now, c, ip), kept, Message(t.now, c, callName), Arguments(t.now, c), c.passed);
  }

  lemma ReboundPlaced(under: Slice, s: Slice, message: Value, args: seq<Value>, passed: Value)
    ensures Place(under, Reentered(s, message, args, passed)) ==
            Place(under, s).(stack := Rebound(under.stack + s.stack, |under.stack|, message, args, passed))
  {
    assert Rebound(under.stack + s.stack, |under.stack|, message, args, passed)
        == under.stack + Rebound(s.stack, 0, message, args, passed);
  }

  /** A call is refused exactly when there are 512 frames, or when the new frame's slots, or
      what the closure kept, would go past 4096 values, 512 frames or 256 handlers. */
  lemma CallRefused(s: State, id: nat, inline: bool, callName: Value, c: Call, ip: nat)
    requires Live(s) && Callee(s.now, c) >= Floor(s.now)
    ensures CallStep(s, id, inline, callName, c, ip).Next? <==>
            |s.now.frames| < 512 &&
            if id !in s.saved then Callee(s.now, c) + 12 <= 4096
            else
              var kept := s.saved[id].slice;
              && Callee(s.now, c) + |kept.stack| <= 4096 && |s.now.frames| + |kept.frames| <= 512
              && |s.now.handlers| + |kept.handlers| <= 256
  {
    hide Ok, ContinuationOk, Floor, Rebound, SetIp;
  }

  /** What the rebinding touches: nothing but those eleven slots. */
  lemma ReboundSlots(kept: Slice, message: Value, args: seq<Value>, passed: Value)
    requires Rooted(kept)
    ensures var r := Reentered(kept, message, args, passed);
            && Rooted(r) && r.frames == kept.frames && r.handlers == kept.handlers && |r.stack| == |kept.stack|
            && r.stack[0] == kept.stack[0] && r.stack[1] == message && r.stack[11] == passed
            && (forall i | 0 <= i < 9 :: r.stack[i + 2] == if i < |args| then args[i] else kept.stack[i + 2])
            && r.stack[12..] == kept.stack[12..]
  {
    var r := Reentered(kept, message, args, passed);
    assert kept.frames[0].slots + FRAME_SLOTS <= |kept.stack|;
    FloorBounds(kept);
    StackOk(kept, r.stack);
  }

  // ----- continuations -----

  predicate Extends(conts: seq<Continuation>, more: seq<Continuation>) { conts <= more }

  lemma StepExtends(s: State, i: Instr)
    requires Live(s) && Step(s, i).Next?
    ensures Extends(s.conts, Step(s, i).s.conts)
  {
    hide Valid, Ok, LocalStep, Floor, Returned, Caught, Place, Restored, Entered, Rebound, Under, Over, Root, Caller;
    if i.CallCC? { CaptureValid(s); }
  }

  lemma {:induction false} RunExtends(s: State, run: seq<Instr>)
    requires Live(s) && Run(s, run).Next?
    ensures Extends(s.conts, Run(s, run).s.conts)
    decreases |run|
  {
    hide Step, Live;
    if run != [] {
      StepLive(s, run[0]);
      StepExtends(s, run[0]);
      RunExtends(Step(s, run[0]).s, run[1..]);
    }
  }

  /** Invoking a continuation behaves as a call: whatever runs in between, when the frame
      entered through it returns, the invoker's frames, handlers and stack are those of
      the call point with callee and arguments replaced by the result. */
  lemma InvokeActsAsCall(s: State, k: nat, c: Call, ip: nat, run: seq<Instr>)
    requires Live(s) && Step(s, Invoke(k, c, ip)).Next? && Live(Step(s, Invoke(k, c, ip)).s)
    requires Run(Step(s, Invoke(k, c, ip)).s, run).Next?
    requires var v := Run(Step(s, Invoke(k, c, ip)).s, run).s;
             && Live(v) && |v.now.stack| > Floor(v.now)
             && v.now.frames != [] && v.now.frames[|v.now.frames| - 1].returnTo == Some(|s.conts|)
    ensures Callee(s.now, c) >= 0
    ensures var v := Run(Step(s, Invoke(k, c, ip)).s, run).s;
            Step(v, Return) == Next(v.(now := Slice(s.now.stack[..Callee(s.now, c)] + [Top(v.now)],
                                                    SetIp(s.now.frames, ip), s.now.handlers)))
  {
    hide Step, Live, Run, SetIp;
    var u := Step(s, Invoke(k, c, ip)).s;
    InvokeKeeps(s, k, c, ip);
    RunExtends(u, run);
    var v := Run(u, run).s;
    assert v.conts[|s.conts|] == u.conts[|s.conts|];
    ReturnThrough(v, |s.conts|);
  }

  /** The invoker's context is kept under the next number. */
  lemma InvokeKeeps(s: State, k: nat, c: Call, ip: nat)
    requires Live(s) && Step(s, Invoke(k, c, ip)).Next?
    ensures Callee(s.now, c) >= 0
    ensures Step(s, Invoke(k, c, ip)).s.conts == s.conts + [Continuation(Caller(s.now, c, ip), None, None)]
  {
    hide Valid, Ok, Floor, SetIp, Restored;
  }

  lemma ReturnThrough(v: State, j: nat)
    requires Live(v) && |v.now.stack| > Floor(v.now) && j < |v.conts|
    requires v.now.frames[|v.now.frames| - 1].returnTo == Some(j)
    ensures Step(v, Return) == Next(v.(now := Pushed(v.conts[j].context, Top(v.now))))
  {
    hide Ok, Floor, Returned;
  }

  /** The continuation is not used up: invoked from any later state it restores the same
      handlers, frames and operands again. */
  lemma InvokedAgain(s: State, k: nat, c: Call, ip: nat, run: seq<Instr>, c': Call, ip': nat)
    requires Live(s) && Step(s, Invoke(k, c, ip)).Next? && Live(Step(s, Invoke(k, c, ip)).s)
    requires var u := Step(s, Invoke(k, c, ip)).s;
             Run(u, run).Next? && Live(Run(u, run).s) && Step(Run(u, run).s, Invoke(k, c', ip')).Next?
    ensures var u := Step(s, Invoke(k, c, ip)).s;
            var w := Step(Run(u, run).s, Invoke(k, c', ip')).s;
            && w.now.handlers == u.now.handlers && |w.now.stack| == |u.now.stack|
            && |w.now.frames| == |u.now.frames|
            && (forall i | 0 <= i < |u.now.frames| ::
                  w.now.frames[i].(returnTo := None) == u.now.frames[i].(returnTo := None))
            && (forall j | 0 <= j < |u.now.stack| - 1 ::
                  w.now.stack[j] == u.now.stack[j] || RebindsSlot(s.conts[k], j))
  {
    var u := Step(s, Invoke(k, c, ip)).s;
    RunExtends(u, run);
    hide Valid, Ok, Floor, Run;
    assert Run(u, run).s.conts[k] == s.conts[k];
  }

  /** Slot 2 and slot 11 of the frame a continuation resumes. */
  predicate RebindsSlot(k: Continuation, j: nat) {
    k.resume.Some? && k.resume.value < |k.context.frames|
    && (j == k.context.frames[k.resume.value].slots + 2 || j == k.context.frames[k.resume.value].slots + 11)
  }
}
