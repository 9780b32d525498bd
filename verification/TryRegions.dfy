/** What a try leaves untouched: from the entry of a try to the throw that its handler
    catches, whatever is called, suspended, resumed or captured in between. */
module TryRegions {
  import opened Values
  import opened Control
  import opened ControlSteps
  import opened Relocation
  import opened Coroutines
  import opened ControlRuns
  import opened Activations

  /** `t` is inside the try entered in state `s`: its handler and all older ones are in
      place, the frames of `s` are still there, and below the height of `s` only the fixed
      slots of its top frame may have changed. */
  predicate InTry(s: Slice, catchIp: nat, t: Slice)
    requires s.frames != []
  {
    var n := |s.frames|;
    && s.handlers + [Handler(catchIp, n, |s.stack|)] <= t.handlers
    && n <= |t.frames| && t.frames[..n - 1] == s.frames[..n - 1]
    && t.frames[n - 1].(ip := 0) == s.frames[n - 1].(ip := 0)
    && |s.stack| <= |t.stack|
    && SameBelow(s, t.stack)
  }

  predicate SameBelow(s: Slice, stack: seq<Value>)
    requires s.frames != []
  {
    var slots := s.frames[|s.frames| - 1].slots;
    && |s.stack| <= |stack|
    && (forall j | 0 <= j < |s.stack| && !(slots <= j < slots + FRAME_SLOTS) :: stack[j] == s.stack[j])
  }

  /** Inside the try, compiled code does not reach below the height at its entry. */
  lemma FloorInTry(s: Slice, catchIp: nat, t: Slice)
    requires s.frames != [] && Ok(t) && InTry(s, catchIp, t)
    ensures Floor(t) >= |s.stack|
    ensures |t.frames| > |s.frames| ==> t.frames[|t.frames| - 1].slots >= |s.stack|
  {
    var n, k := |s.frames|, |s.handlers|;
    var h := t.handlers[k];
    assert h == Handler(catchIp, n, |s.stack|);
    assert HandlerOk(h, t.frames, |t.stack|);
    if |t.frames| == n {
      LastHandler(t, k);
    } else {
      FloorBounds(t);
    }
  }

  lemma StackInTry(s: Slice, catchIp: nat, t: Slice, n: nat, push: seq<Value>)
    requires s.frames != [] && InTry(s, catchIp, t) && |s.stack| <= n <= |t.stack|
    ensures InTry(s, catchIp, t.(stack := t.stack[..n] + push))
  {
  }

  lemma SetIpInTry(s: Slice, catchIp: nat, t: Slice, ip: nat)
    requires s.frames != [] && InTry(s, catchIp, t)
    ensures InTry(s, catchIp, t.(frames := SetIp(t.frames, ip)))
  {
  }

  /** A younger handler catches: everything older stays. */
  lemma CaughtInTry(s: Slice, catchIp: nat, t: Slice, exc: Value)
    requires s.frames != [] && Ok(t) && InTry(s, catchIp, t) && |t.handlers| > |s.handlers| + 1
    ensures InTry(s, catchIp, Caught(t, exc))
  {
    var n, k := |s.frames|, |s.handlers|;
    var h := t.handlers[|t.handlers| - 1];
    assert t.handlers[k] == Handler(catchIp, n, |s.stack|);
    assert HandlerOk(h, t.frames, |t.stack|);
    assert h.frameCount >= n && h.stackCount >= |s.stack|;
    hide Ok, HandlerOk, Monotone;
    var cut := Slice(t.stack[..h.stackCount] + [exc], t.frames[..h.frameCount], t.handlers[..|t.handlers| - 1]);
    assert InTry(s, catchIp, cut);
    SetIpInTry(s, catchIp, cut, h.catchIp);
  }

  lemma SlotInTry(s: Slice, catchIp: nat, t: Slice, slot: nat, v: Value)
    requires s.frames != [] && InTry(s, catchIp, t) && slot < FRAME_SLOTS
    requires t.frames[|t.frames| - 1].slots + FRAME_SLOTS <= |t.stack|
    requires |t.frames| > |s.frames| ==> t.frames[|t.frames| - 1].slots >= |s.stack|
    ensures InTry(s, catchIp, t.(stack := t.stack[t.frames[|t.frames| - 1].slots + slot := v]))
  {
  }

  lemma HandlersInTry(s: Slice, catchIp: nat, t: Slice, hs: seq<Handler>)
    requires s.frames != [] && InTry(s, catchIp, t) && |hs| > |s.handlers| && (hs <= t.handlers || t.handlers <= hs)
    ensures InTry(s, catchIp, t.(handlers := hs))
  {
  }

  lemma EnteredInTry(s: Slice, catchIp: nat, t: Slice, closure: nat, inline: bool, callName: Value, call: Call)
    requires s.frames != [] && InTry(s, catchIp, t) && Callee(t, call) >= |s.stack|
    ensures InTry(s, catchIp, Entered(t, closure, inline, callName, call))
  {
  }

  /** A frame above that of the try goes, and everything above it. */
  lemma UnderInTry(s: Slice, catchIp: nat, t: Slice, root: nat)
    requires s.frames != [] && Ok(t) && InTry(s, catchIp, t) && |s.frames| <= root < |t.frames|
    ensures |s.stack| <= t.frames[root].slots <= |t.stack| && InTry(s, catchIp, Under(t, root))
  {
    var n, k := |s.frames|, |s.handlers|;
    var mine := t.handlers[..k + 1];
    assert t.handlers[k] == Handler(catchIp, n, |s.stack|);
    assert HandlerOk(t.handlers[k], t.frames, |t.stack|);
    assert |s.stack| <= t.frames[n].slots <= t.frames[root].slots <= |t.stack|;
    forall a | 0 <= a <= k ensures mine[a].frameCount <= root {
      assert t.handlers[a].frameCount <= t.handlers[k].frameCount;
    }
    hide Ok, Trim;
    TrimKeeps(mine, t.handlers, root);
    HandlersInTry(s, catchIp, t, Trim(t.handlers, root));
  }

  lemma {:induction false} TrimKeeps(older: seq<Handler>, hs: seq<Handler>, count: nat)
    requires older <= hs && forall a | 0 <= a < |older| :: older[a].frameCount <= count
    ensures older <= Trim(hs, count)
    decreases |hs|
  {
    if hs != [] && hs[|hs| - 1].frameCount > count {
      TrimKeeps(older, hs[..|hs| - 1], count);
    }
  }

  lemma PushInTry(s: Slice, catchIp: nat, t: Slice, v: Value)
    requires s.frames != [] && InTry(s, catchIp, t)
    ensures InTry(s, catchIp, Pushed(t, v))
  {
  }

  lemma ReturnInTry(s: Slice, catchIp: nat, t: Slice, v: Value)
    requires s.frames != [] && Ok(t) && InTry(s, catchIp, t) && |t.frames| > |s.frames|
    ensures InTry(s, catchIp, Returned(t, v))
  {
    hide Ok, InTry;
    UnderInTry(s, catchIp, t, |t.frames| - 1);
    PushInTry(s, catchIp, Under(t, |t.frames| - 1), v);
  }

  lemma CallerInTry(s: Slice, catchIp: nat, t: Slice, c: Call, ip: nat)
    requires s.frames != [] && InTry(s, catchIp, t) && Callee(t, c) >= |s.stack|
    ensures InTry(s, catchIp, Caller(t, c, ip)) && |Caller(t, c, ip).stack| >= |s.stack|
  {
    var u := t.(stack := t.stack[..Callee(t, c)]);
    assert InTry(s, catchIp, u);
    SetIpInTry(s, catchIp, u, ip);
  }

  lemma PlacedInTry(s: Slice, catchIp: nat, t: Slice, act: Slice)
    requires s.frames != [] && InTry(s, catchIp, t)
    ensures InTry(s, catchIp, Place(t, act))
  {
    var p := Place(t, act);
    assert forall i | 0 <= i < |t.frames| :: p.frames[i] == t.frames[i];
    assert p.frames[..|s.frames| - 1] == t.frames[..|s.frames| - 1];
  }

  lemma ResumedInTry(s: Slice, catchIp: nat, below: Slice, co: Coroutine, message: Value, args: seq<Value>, passed: Value, result: Value)
    requires s.frames != [] && InTry(s, catchIp, below)
    ensures InTry(s, catchIp, Resumed(below, co, message, args, passed, result))
  {
    hide InTry;
    var act := Reentered(co.slice, message, args, passed);
    ReboundPlaced(below, co.slice, message, args, passed);
    PlacedStack(below, co.slice);
    PlacedInTry(s, catchIp, below, act);
    PushInTry(s, catchIp, Place(below, act), result);
  }

  lemma CallInTry(s: Slice, catchIp: nat, t: State, id: nat, inline: bool, callName: Value, c: Call, ip: nat)
    requires s.frames != [] && Valid(t) && InTry(s, catchIp, t.now)
    requires Callee(t.now, c) >= Floor(t.now) && CallStep(t, id, inline, callName, c, ip).Next?
    ensures InTry(s, catchIp, CallStep(t, id, inline, callName, c, ip).s.now)
  {
    FloorInTry(s, catchIp, t.now);
    hide Valid, Ok, InTry, Floor, Caller, Entered, Resumed, Arguments, Message;
    if id in t.saved {
      ResumeIs(t, id, callName, c, ip);
      CallerInTry(s, catchIp, t.now, c, ip);
      var message, args := Message(t.now, c, callName), Arguments(t.now, c);
      var result := if c.hasMessage then message else if args != [] then args[0] else Null;
      ResumedInTry(s, catchIp, Caller(t.now, c, ip), t.saved[id], message, args, c.passed, result);
    } else {
      SetIpInTry(s, catchIp, t.now, ip);
      EnteredInTry(s, catchIp, t.now.(frames := SetIp(t.now.frames, ip)), id, inline, callName, c);
    }
  }

  /** The instruction neither leaves the frame of the try nor takes its handler away. */
  predicate Keeps(s: Slice, t: Slice, i: Instr)
    requires s.frames != [] && t.frames != []
  {
    && Within(t, i, |s.frames| - 1)
    && (i.Raise? || (i.Do? && i.local.PopHandler?) ==> |t.handlers| > |s.handlers| + 1)
  }

  lemma LocalInTry(s: Slice, catchIp: nat, t: Slice, i: Local)
    requires s.frames != [] && Ok(t) && t.frames != [] && InTry(s, catchIp, t) && LocalStep(t, i).Some?
    requires i.PopHandler? ==> |t.handlers| > |s.handlers| + 1
    ensures InTry(s, catchIp, LocalStep(t, i).value)
  {
    FloorInTry(s, catchIp, t);
    FloorBounds(t);
    hide Ok, Floor, InTry;
    match i
    case Operands(drop, push, ip) =>
      StackInTry(s, catchIp, t, |t.stack| - drop, push);
      SetIpInTry(s, catchIp, t.(stack := t.stack[..|t.stack| - drop] + push), ip);
    case StoreSlot(slot, v, ip) =>
      SlotInTry(s, catchIp, t, slot, v);
      SetIpInTry(s, catchIp, t.(stack := t.stack[t.frames[|t.frames| - 1].slots + slot := v]), ip);
    case PushHandler(at, ip) =>
      HandlersInTry(s, catchIp, t, t.handlers + [Handler(at, |t.frames|, |t.stack|)]);
      SetIpInTry(s, catchIp, t.(handlers := t.handlers + [Handler(at, |t.frames|, |t.stack|)]), ip);
    case PopHandler(ip) =>
      HandlersInTry(s, catchIp, t, t.handlers[..|t.handlers| - 1]);
      SetIpInTry(s, catchIp, t.(handlers := t.handlers[..|t.handlers| - 1]), ip);
  }

  /** Such an instruction stays inside the try. */
  lemma StepInTry(s: Slice, catchIp: nat, t: State, i: Instr)
    requires s.frames != [] && Live(t) && InTry(s, catchIp, t.now) && Keeps(s, t.now, i) && Step(t, i).Next?
    ensures InTry(s, catchIp, Step(t, i).s.now)
  {
    hide Ok, ContinuationOk, InTry, Floor, Root, Returned, Caught, Under, Over, CallStep;
    match i
    case Do(local) => LocalInTry(s, catchIp, t.now, local);
    case CallClosure(closure, inline, callName, call, ip) => CallInTry(s, catchIp, t, closure, inline, callName, call, ip);
    case CallCC(self, receiver) => CaptureInTry(s, catchIp, t, self, receiver);
    case Yield => CutInTry(s, catchIp, t);
    case Return => ReturnInTry(s, catchIp, t.now, Top(t.now));
    case InlineReturn => CutInTry(s, catchIp, t);
    case Raise => CaughtInTry(s, catchIp, t.now, Top(t.now));
    case Abort(_) => ReturnInTry(s, catchIp, t.now, Null);
  }

  lemma CutInTry(s: Slice, catchIp: nat, t: State)
    requires s.frames != [] && Live(t) && InTry(s, catchIp, t.now) && Root(t.now.frames) >= |s.frames| && |t.now.stack| > Floor(t.now)
    ensures Ok(Popped(t.now)) && Root(t.now.frames) < |t.now.frames|
    ensures t.now.frames[Root(t.now.frames)].slots <= |Popped(t.now).stack|
    ensures InTry(s, catchIp, Pushed(Under(Popped(t.now), Root(t.now.frames)), Top(t.now)))
  {
    FloorInTry(s, catchIp, t.now);
    hide Ok, InTry, Floor, Root, Under, ContinuationOk;
    PoppedOk(t.now);
    StackInTry(s, catchIp, t.now, |t.now.stack| - 1, []);
    assert t.now.stack[..|t.now.stack| - 1] + [] == Popped(t.now).stack;
    UnderInTry(s, catchIp, Popped(t.now), Root(t.now.frames));
    PushInTry(s, catchIp, Under(Popped(t.now), Root(t.now.frames)), Top(t.now));
  }

  lemma CaptureInTry(s: Slice, catchIp: nat, t: State, self: Value, receiver: Option<Receiver>)
    requires s.frames != [] && Live(t) && InTry(s, catchIp, t.now) && Root(t.now.frames) >= |s.frames|
    requires Step(t, CallCC(self, receiver)).Next?
    ensures InTry(s, catchIp, Step(t, CallCC(self, receiver)).s.now)
  {
    hide Ok, InTry, Floor, Root, Under, Over, ContinuationOk, CallStep;
    CaptureValid(t);
    UnderInTry(s, catchIp, t.now, Root(t.now.frames));
    var u := CaptureStep(t);
    match receiver
    case None => PushInTry(s, catchIp, u.now, self);
    case Some(r) =>
      PushedOk(u.now, r.value);
      PushedOk(Pushed(u.now, r.value), self);
      var now := Pushed(Pushed(u.now, r.value), self);
      NowValid(u, now);
      PushInTry(s, catchIp, u.now, r.value);
      PushInTry(s, catchIp, Pushed(u.now, r.value), self);
      FloorBounds(u.now);
      SameFloor(u.now, now.stack);
      CallInTry(s, catchIp, u.(now := now), r.closure, r.inline, r.callName, Call(1, false, r.passed),
                if now.frames == [] then 0 else now.frames[|now.frames| - 1].ip);
  }

  /** No instruction of the run leaves the try. */
  predicate RunKeeps(s: Slice, t: State, run: seq<Instr>)
    requires s.frames != [] && Live(t)
    decreases |run|
  {
    run != [] ==>
      && Keeps(s, t.now, run[0])
      && (Step(t, run[0]).Next? ==> (StepLive(t, run[0]); RunKeeps(s, Step(t, run[0]).s, run[1..])))
  }

  lemma {:induction false} RunInTry(s: Slice, catchIp: nat, t: State, run: seq<Instr>)
    requires s.frames != [] && Live(t) && InTry(s, catchIp, t.now) && RunKeeps(s, t, run) && Run(t, run).Next?
    ensures Live(Run(t, run).s) && InTry(s, catchIp, Run(t, run).s.now)
    decreases |run|
  {
    hide Valid, Ok, Step, InTry, Keeps;
    if run != [] {
      StepLive(t, run[0]);
      StepInTry(s, catchIp, t, run[0]);
      RunInTry(s, catchIp, Step(t, run[0]).s, run[1..]);
    }
  }

  /** A try entered in state `s` whose handler catches an exception after any such run:
      frames and handlers are those of `s`, the stack has the height of `s` and the
      exception on top, and below it only the fixed slots of the frame may have changed. */
  lemma ThrowRestoresTry(s: State, catchIp: nat, ip: nat, run: seq<Instr>)
    requires Live(s) && Step(s, Do(PushHandler(catchIp, ip))).Next?
    requires var entered := Step(s, Do(PushHandler(catchIp, ip))).s;
             && Live(entered) && RunKeeps(s.now, entered, run) && Run(entered, run).Next?
             && var t := Run(entered, run).s;
                Live(t) && |t.now.handlers| == |s.now.handlers| + 1 && Step(t, Raise).Next?
    ensures var t := Run(Step(s, Do(PushHandler(catchIp, ip))).s, run).s;
            var u := Step(t, Raise).s;
            && u.now.handlers == s.now.handlers && u.now.frames == SetIp(s.now.frames, catchIp)
            && t.now.stack != [] && SameBelow(s.now, t.now.stack) && u.now.stack == t.now.stack[..|s.now.stack|] + [Top(t.now)]
  {
    hide Run, RunKeeps, Ok, Floor, SameBelow;
    var entered := Step(s, Do(PushHandler(catchIp, ip))).s;
    EntersTry(s.now, catchIp, ip);
    RunInTry(s.now, catchIp, entered, run);
    var t := Run(entered, run).s;
    RaisedInTry(s.now, catchIp, t);
    CaughtByTry(s.now, catchIp, t.now, Top(t.now));
  }

  lemma RaisedInTry(s: Slice, catchIp: nat, t: State)
    requires s.frames != [] && Live(t) && InTry(s, catchIp, t.now) && Step(t, Raise).Next?
    ensures t.now.stack != [] && t.now.handlers != [] && SameBelow(s, t.now.stack)
    ensures Step(t, Raise).s.now == Caught(t.now, Top(t.now))
  {
    hide Ok, Floor, SameBelow;
  }

  lemma EntersTry(s: Slice, catchIp: nat, ip: nat)
    requires Ok(s) && s.frames != []
    ensures InTry(s, catchIp, LocalStep(s, PushHandler(catchIp, ip)).value)
  {
    var t := s.(handlers := s.handlers + [Handler(catchIp, |s.frames|, |s.stack|)]);
    assert InTry(s, catchIp, t);
    SetIpInTry(s, catchIp, t, ip);
  }

  lemma CaughtByTry(s: Slice, catchIp: nat, t: Slice, exc: Value)
    requires s.frames != [] && Ok(t) && InTry(s, catchIp, t) && |t.handlers| == |s.handlers| + 1
    ensures var u := Caught(t, exc);
            u.handlers == s.handlers && u.frames == SetIp(s.frames, catchIp) && u.stack == t.stack[..|s.stack|] + [exc]
  {
    hide Monotone, FramesOk;
    var n := |s.frames|;
    assert t.handlers == s.handlers + [Handler(catchIp, n, |s.stack|)];
    assert SetIp(t.frames[..n], catchIp) == SetIp(s.frames, catchIp);
  }
}
