/** Suspending and resuming activations, continuations, and the invariant of every
    reachable control state. */
module Coroutines {
  import opened Values
  import opened Control
  import opened ControlSteps
  import opened Relocation

  datatype Outcome = Next(s: State) | Finished(result: Value) | Failed

  /** The activation of frame `root` is cut off and kept by the closure that owns it. */
  function Suspended(s: State, root: nat, needsResult: bool): State
    requires Ok(s.now) && root < |s.now.frames|
  {
    UnderOk(s.now, root);
    State(Under(s.now, root),
          s.saved[s.now.frames[root].closure := Coroutine(Over(s.now, root), needsResult)],
          s.conts)
  }

  /** A result for the frame below; the run loop ends when there is none. */
  function Deliver(s: State, result: Value): Outcome {
    if s.now.frames == [] then Finished(result) else Next(s.(now := Pushed(s.now, result)))
  }

  /** OP_YIELD. */
  function YieldStep(s: State): Outcome
    requires Valid(s) && s.now.frames != [] && |s.now.stack| > Floor(s.now)
  {
    PoppedOk(s.now);
    var t := s.(now := Popped(s.now));
    Deliver(Suspended(t, Root(t.now.frames), false), Top(s.now))
  }

  /** The fixed slots an argument list overwrites when a suspended activation resumes. */
  function Rebound(stack: seq<Value>, base: nat, message: Value, args: seq<Value>, passed: Value): (r: seq<Value>)
    ensures |r| == |stack|
  {
    seq(|stack|, i requires 0 <= i < |stack| =>
      if i == base + 1 then message
      else if base + 2 <= i < base + 11 && i - base - 2 < |args| then args[i - base - 2]
      else if i == base + 11 then passed
      else stack[i])
  }

  /** The caller of a call instruction without callee and arguments. */
  function Caller(s: Slice, c: Call, ip: nat): Slice
    requires Callee(s, c) >= 0
  {
    Slice(s.stack[..Callee(s, c)], SetIp(s.frames, ip), s.handlers)
  }

  /** call_closure for a suspended closure. */
  function ResumeStep(s: State, id: nat, callName: Value, c: Call, ip: nat): Outcome
    requires Valid(s) && Callee(s.now, c) >= Floor(s.now) && id in s.saved
  {
    var under, co := Caller(s.now, c, ip), s.saved[id];
    var placed := Place(under, co.slice);
    if |s.now.frames| >= MAX_FRAMES || |placed.stack| > STACK_LIMIT || |placed.frames| > MAX_FRAMES
       || |placed.handlers| > MAX_HANDLERS then Failed
    else
      var args := Arguments(s.now, c);
      var message := Message(s.now, c, callName);
      var ready := placed.(stack := Rebound(placed.stack, |under.stack|, message, args, c.passed));
      var result := if c.hasMessage then message else if args != [] then args[0] else Null;
      Next(State(if co.needsResult then Pushed(ready, result) else ready, s.saved - {id}, s.conts))
  }

  /** call_closure. */
  function CallStep(s: State, id: nat, inline: bool, callName: Value, c: Call, ip: nat): Outcome
    requires Valid(s) && Callee(s.now, c) >= Floor(s.now)
  {
    if id in s.saved then ResumeStep(s, id, callName, c, ip)
    else if |s.now.frames| >= MAX_FRAMES || Callee(s.now, c) + FRAME_SLOTS > STACK_LIMIT then Failed
    else Next(s.(now := Entered(s.now.(frames := SetIp(s.now.frames, ip)), id, inline, callName, c)))
  }

  /** The context a continuation restores, with the invoker's context to return to. */
  function Restored(k: Continuation, returnTo: nat, value: Value, passed: Value): Slice {
    if k.resume.Some? && k.resume.value < |k.context.frames| then
      var r := k.resume.value;
      var f := k.context.frames[r];
      var stack := k.context.stack;
      k.context.(frames := k.context.frames[r := f.(returnTo := Some(returnTo))],
                 stack := seq(|stack|, i requires 0 <= i < |stack| =>
                   if i == f.slots + 2 then value else if i == f.slots + 11 then passed else stack[i]))
    else k.context
  }

  /** call_value for a continuation. */
  function InvokeStep(s: State, k: nat, c: Call, ip: nat): Outcome
    requires Valid(s) && s.now.frames != [] && Callee(s.now, c) >= Floor(s.now) && k < |s.conts|
  {
    var cont := s.conts[k];
    var value := if c.Total() > 0 then s.now.stack[|s.now.stack| - c.Total()] else Null;
    var saved := if cont.owner.Some? then s.saved - {cont.owner.value} else s.saved;
    Next(State(Pushed(Restored(cont, |s.conts|, value, c.passed), value), saved,
               s.conts + [Continuation(Caller(s.now, c, ip), None, None)]))
  }

  /** OP_RETURN: a frame entered through a continuation goes back to the invoker. */
  function ReturnStep(s: State): Outcome
    requires Valid(s) && s.now.frames != [] && |s.now.stack| > Floor(s.now)
  {
    var result := Top(s.now);
    var f := s.now.frames[|s.now.frames| - 1];
    if f.returnTo.Some? then Next(s.(now := Pushed(s.conts[f.returnTo.value].context, result)))
    else
      var t := Returned(s.now, result);
      if t.frames == [] then Finished(result) else Next(s.(now := t))
  }

  /** OP_INLINE_RETURN leaves all inline frames and the ordinary one below them. */
  function InlineReturnStep(s: State): Outcome
    requires Valid(s) && s.now.frames != [] && |s.now.stack| > Floor(s.now)
  {
    PoppedOk(s.now);
    var root := Root(s.now.frames);
    Deliver(State(Under(Popped(s.now), root), s.saved - {s.now.frames[root].closure}, s.conts), Top(s.now))
  }

  /** OP_THROW. */
  function ThrowStep(s: State): Outcome
    requires Valid(s) && s.now.frames != [] && |s.now.stack| > Floor(s.now)
  {
    if s.now.handlers == [] then Failed else Next(s.(now := Caught(s.now, Top(s.now))))
  }

  /** The end of an instruction after abort was requested. */
  function AbortStep(s: State, flowExit: bool): Outcome
    requires Valid(s) && s.now.frames != []
  {
    var t := Returned(s.now, Null);
    if flowExit || t.frames == [] then Finished(Null) else Next(s.(now := t))
  }

  /** OP_CALLCC up to the call of its handler: the whole context is captured and the
      activation is suspended. */
  function CaptureStep(s: State): State
    requires Valid(s) && s.now.frames != []
  {
    var root := Root(s.now.frames);
    var owner := s.now.frames[root].closure;
    Suspended(s.(conts := s.conts + [Continuation(s.now, Some(owner), Some(root))]), root, true)
  }

  lemma PoppedOk(s: Slice)
    requires Ok(s) && s.frames != [] && |s.stack| > Floor(s)
    ensures Ok(Popped(s))
  {
    StackOk(s, s.stack[..|s.stack| - 1]);
  }

  // ----- the invariant -----

  lemma NowValid(s: State, now: Slice)
    requires Valid(s) && Ok(now) && Returns(now.frames, s.conts)
    ensures Valid(s.(now := now))
  {
    hide Ok, ContinuationOk;
  }

  lemma SavedValid(s: State, saved: map<nat, Coroutine>)
    requires Valid(s)
    requires forall id | id in saved ::
               (id in s.saved && saved[id] == s.saved[id])
               || (Rooted(saved[id].slice) && Returns(saved[id].slice.frames, s.conts))
    ensures Valid(s.(saved := saved))
  {
    hide Ok, ContinuationOk, Rooted, Returns;
  }

  lemma MoreContinuations(s: State, k: Continuation)
    requires Valid(s) && ContinuationOk(k, s.conts)
    ensures Valid(s.(conts := s.conts + [k]))
  {
    hide Ok, Rooted;
    var conts := s.conts + [k];
    forall i | 0 <= i < |conts| ensures ContinuationOk(conts[i], conts) {
      assert ContinuationOk(if i < |s.conts| then s.conts[i] else k, s.conts);
    }
  }

  lemma SuspendedValid(s: State, root: nat, needsResult: bool)
    requires Valid(s) && root < |s.now.frames|
    ensures Valid(Suspended(s, root, needsResult))
  {
    UnderOk(s.now, root);
    OverOk(s.now, root);
    OverReturns(s, root);
    hide Ok, ContinuationOk, Rooted, Over;
    var t := Suspended(s, root, needsResult);
    SavedValid(s, t.saved);
    NowValid(s.(saved := t.saved), t.now);
  }

  lemma OverReturns(s: State, root: nat)
    requires Ok(s.now) && Returns(s.now.frames, s.conts) && root < |s.now.frames|
    ensures Returns(Over(s.now, root).frames, s.conts) && Returns(Under(s.now, root).frames, s.conts)
  {
    hide Ok;
    var fs := Over(s.now, root).frames;
    forall i | 0 <= i < |fs| && fs[i].returnTo.Some? ensures fs[i].returnTo.value < |s.conts| {
      assert fs[i].returnTo == s.now.frames[root + i].returnTo;
    }
  }

  lemma DeliverValid(s: State, result: Value)
    requires Valid(s) && Deliver(s, result).Next?
    ensures Valid(Deliver(s, result).s)
  {
    FloorBounds(s.now);
    StackOk(s.now, s.now.stack + [result]);
    hide Ok;
    NowValid(s, Pushed(s.now, result));
  }

  lemma YieldValid(s: State)
    requires Valid(s) && s.now.frames != [] && |s.now.stack| > Floor(s.now)
    ensures YieldStep(s).Next? ==> Valid(YieldStep(s).s)
  {
    hide Ok, Suspended, Root;
    PoppedOk(s.now);
    var t := s.(now := Popped(s.now));
    NowValid(s, t.now);
    SuspendedValid(t, Root(t.now.frames), false);
    if YieldStep(s).Next? { DeliverValid(Suspended(t, Root(t.now.frames), false), Top(s.now)); }
  }

  lemma CallerOk(s: Slice, c: Call, ip: nat)
    requires Ok(s) && Callee(s, c) >= Floor(s)
    ensures Ok(Caller(s, c, ip))
  {
    hide Ok;
    FloorBounds(s);
    SetIpOk(s, ip);
    StackOk(s.(frames := SetIp(s.frames, ip)), s.stack[..Callee(s, c)]);
  }

  lemma SetIpReturns(fs: seq<Frame>, ip: nat, conts: seq<Continuation>)
    requires Returns(fs, conts)
    ensures Returns(SetIp(fs, ip), conts)
  {
  }

  lemma PlaceReturns(under: Slice, s: Slice, conts: seq<Continuation>)
    requires Returns(under.frames, conts) && Returns(s.frames, conts)
    ensures Returns(Place(under, s).frames, conts)
  {
    var fs := Place(under, s).frames;
    forall i | 0 <= i < |fs| && fs[i].returnTo.Some? ensures fs[i].returnTo.value < |conts| {
      if i >= |under.frames| { assert fs[i].returnTo == s.frames[i - |under.frames|].returnTo; }
    }
  }

  lemma ResumeValid(s: State, id: nat, callName: Value, c: Call, ip: nat)
    requires Valid(s) && Callee(s.now, c) >= Floor(s.now) && id in s.saved
    ensures var o := ResumeStep(s, id, callName, c, ip); o.Next? ==> Valid(o.s)
  {
    hide Ok, ContinuationOk, Returns, Place, Rebound, SetIp;
    var under, co := Caller(s.now, c, ip), s.saved[id];
    CallerOk(s.now, c, ip);
    SetIpReturns(s.now.frames, ip, s.conts);
    PlaceOk(under, co.slice);
    PlaceReturns(under, co.slice, s.conts);
    PlaceView(under, co.slice);
    var o := ResumeStep(s, id, callName, c, ip);
    if o.Next? {
      var placed := Place(under, co.slice);
      FloorBounds(placed);
      StackOk(placed, o.s.now.stack);
      SavedValid(s, o.s.saved);
      NowValid(s.(saved := o.s.saved), o.s.now);
    }
  }

  lemma CallValid(s: State, id: nat, inline: bool, callName: Value, c: Call, ip: nat)
    requires Valid(s) && Callee(s.now, c) >= Floor(s.now)
    ensures var o := CallStep(s, id, inline, callName, c, ip); o.Next? ==> Valid(o.s)
  {
    hide Ok, ContinuationOk, SetIp, ResumeStep;
    if id in s.saved {
      ResumeValid(s, id, callName, c, ip);
    } else {
      SetIpOk(s.now, ip);
      SetIpReturns(s.now.frames, ip, s.conts);
      var t := s.now.(frames := SetIp(s.now.frames, ip));
      var e := Entered(t, id, inline, callName, c);
      EnteredOk(t, Frame(id, inline, 0, Callee(s.now, c), None), e.stack);
      NowValid(s, e);
    }
  }

  lemma InvokeValid(s: State, k: nat, c: Call, ip: nat)
    requires Valid(s) && s.now.frames != [] && Callee(s.now, c) >= Floor(s.now) && k < |s.conts|
    ensures InvokeStep(s, k, c, ip).Next? && Valid(InvokeStep(s, k, c, ip).s)
  {
    hide Ok, SetIp, Floor;
    var t := InvokeStep(s, k, c, ip).s;
    var back := Continuation(Caller(s.now, c, ip), None, None);
    CallerOk(s.now, c, ip);
    SetIpReturns(s.now.frames, ip, s.conts);
    MoreContinuations(s, back);
    var u := s.(conts := s.conts + [back]);
    assert ContinuationOk(s.conts[k], s.conts);
    SavedValid(u, t.saved);
    RestoredOk(s.conts[k], s.conts, back, t.now.stack[|t.now.stack| - 1], c.passed);
    NowValid(u.(saved := t.saved), t.now);
  }

  lemma RestoredOk(k: Continuation, conts: seq<Continuation>, back: Continuation, value: Value, passed: Value)
    requires ContinuationOk(k, conts)
    ensures var now := Pushed(Restored(k, |conts|, value, passed), value);
            Ok(now) && Returns(now.frames, conts + [back])
  {
    var now := Pushed(Restored(k, |conts|, value, passed), value);
    var c := k.context;
    forall a | 0 <= a < |now.handlers| ensures HandlerOk(now.handlers[a], now.frames, |now.stack|) {
      assert HandlerOk(c.handlers[a], c.frames, |c.stack|);
    }
  }

  lemma ReturnValid(s: State)
    requires Valid(s) && s.now.frames != [] && |s.now.stack| > Floor(s.now)
    ensures ReturnStep(s).Next? ==> Valid(ReturnStep(s).s)
  {
    hide Ok, Trim, Floor;
    var f := s.now.frames[|s.now.frames| - 1];
    if f.returnTo.Some? {
      assert ContinuationOk(s.conts[f.returnTo.value], s.conts);
      PushedOk(s.conts[f.returnTo.value].context, Top(s.now));
      NowValid(s, Pushed(s.conts[f.returnTo.value].context, Top(s.now)));
    } else {
      ReturnedOk(s.now, Top(s.now));
      if ReturnStep(s).Next? { NowValid(s, Returned(s.now, Top(s.now))); }
    }
  }

  lemma PushedOk(s: Slice, v: Value)
    requires Ok(s)
    ensures Ok(Pushed(s, v))
  {
    hide Monotone;
    forall a | 0 <= a < |s.handlers| ensures HandlerOk(s.handlers[a], s.frames, |s.stack| + 1) {
      assert HandlerOk(s.handlers[a], s.frames, |s.stack|);
    }
  }

  lemma InlineReturnValid(s: State)
    requires Valid(s) && s.now.frames != [] && |s.now.stack| > Floor(s.now)
    ensures InlineReturnStep(s).Next? ==> Valid(InlineReturnStep(s).s)
  {
    hide Root, Floor, Monotone, HandlerOk;
    PoppedOk(s.now);
    var root := Root(s.now.frames);
    var p := Popped(s.now);
    UnderOk(p, root);
    OverReturns(s.(now := p), root);
    var t := State(Under(p, root), s.saved - {s.now.frames[root].closure}, s.conts);
    SavedValid(s, t.saved);
    NowValid(s.(saved := t.saved), t.now);
    if t.now.frames != [] { DeliverValid(t, Top(s.now)); }
  }

  lemma ThrowValid(s: State)
    requires Valid(s) && s.now.frames != [] && |s.now.stack| > Floor(s.now)
    ensures ThrowStep(s).Next? ==> Valid(ThrowStep(s).s)
  {
    if s.now.handlers != [] {
      CaughtOk(s.now, Top(s.now));
      CaughtReturns(s.now, Top(s.now), s.conts);
      hide Ok;
      NowValid(s, Caught(s.now, Top(s.now)));
    }
  }

  lemma CaughtReturns(s: Slice, exc: Value, conts: seq<Continuation>)
    requires Ok(s) && s.handlers != [] && Returns(s.frames, conts)
    ensures Returns(Caught(s, exc).frames, conts)
  {
    LastOk(s);
  }

  lemma AbortValid(s: State, flowExit: bool)
    requires Valid(s) && s.now.frames != []
    ensures AbortStep(s, flowExit).Next? ==> Valid(AbortStep(s, flowExit).s)
  {
    ReturnedOk(s.now, Null);
    hide Ok, Trim;
    if AbortStep(s, flowExit).Next? { NowValid(s, Returned(s.now, Null)); }
  }

  lemma CaptureValid(s: State)
    requires Valid(s) && s.now.frames != []
    ensures Valid(CaptureStep(s))
  {
    hide Ok, Suspended, Root;
    var root := Root(s.now.frames);
    var k := Continuation(s.now, Some(s.now.frames[root].closure), Some(root));
    MoreContinuations(s, k);
    SuspendedValid(s.(conts := s.conts + [k]), root, true);
  }
}
