/** The virtual machine that changes its control state in place. */
module ControlMachine {
  import opened Values
  import opened Control
  import opened ControlSteps
  import opened Coroutines

  class Vm {
    var stack: seq<Value>
    var frames: seq<Frame>
    var handlers: seq<Handler>
    var saved: map<nat, Coroutine>
    var conts: seq<Continuation>

    function Now(): State
      reads this
    {
      State(Slice(stack, frames, handlers), saved, conts)
    }

    /** The run loop may execute an instruction that pops its operand. */
    ghost predicate Ready()
      reads this
    {
      Valid(Now()) && frames != [] && |stack| > Floor(Now().now)
    }

    /** What an instruction did: it went on, or ended the run loop with a result. */
    ghost predicate Did(o: Outcome, done: Option<Value>)
      reads this
    {
      match o
      case Next(t) => done == None && Now() == t
      case Finished(v) => done == Some(v)
      case Failed => false
    }

    constructor ()
      ensures Now() == State(Slice([], [], []), map[], [])
    {
      stack, frames, handlers, saved, conts := [], [], [], map[], [];
    }

    method Pop() returns (v: Value)
      requires stack != []
      modifies this`stack
      ensures stack == old(stack)[..|old(stack)| - 1] && v == old(stack)[|old(stack)| - 1]
    {
      v := stack[|stack| - 1];
      stack := stack[..|stack| - 1];
    }

    /** trim_try_handlers. */
    method TrimHandlers(count: nat)
      modifies this`handlers
      ensures handlers == Trim(old(handlers), count)
    {
      while handlers != [] && handlers[|handlers| - 1].frameCount > count
        invariant Trim(handlers, count) == Trim(old(handlers), count)
        decreases |handlers|
      {
        handlers := handlers[..|handlers| - 1];
      }
    }

    /** The walk down over inline frames. */
    method FindRoot() returns (root: nat)
      requires frames != []
      ensures root == Root(frames)
    {
      root := |frames| - 1;
      assert frames[..root + 1] == frames;
      while root > 0 && frames[root].inline
        invariant root < |frames| && Root(frames[..root + 1]) == Root(frames)
      {
        assert frames[..root + 1][..root] == frames[..root];
        root := root - 1;
      }
    }

    /** The part OP_YIELD and OP_CALLCC share: frames, stack slice and handlers move into
        the owner, with offsets from its root. */
    method Suspend(root: nat, needsResult: bool)
      requires Valid(Now()) && root < |frames|
      modifies this
      ensures Now() == Suspended(old(Now()), root, needsResult)
    {
      hide Ok, Trim, First, ContinuationOk, Raise, Lower, LowerHandlers;
      ghost var s := Now().now;
      AboveBase(s, root);
      UnderOk(s, root);
      RootInside(s, root);
      var base := frames[root].slots;
      var owner := frames[root].closure;
      var keptFrames := LowerAll(frames[root..], base);
      var first := FindFirst(handlers, root);
      var keptHandlers := LowerAllHandlers(handlers[first..], root, base);
      saved := saved[owner := Coroutine(Slice(stack[base..], keptFrames, keptHandlers), needsResult)];
      frames := frames[..root];
      TrimHandlers(root);
      stack := stack[..base];
    }

    /** OP_YIELD. */
    method Yield() returns (done: Option<Value>)
      requires Ready()
      modifies this
      ensures Did(YieldStep(old(Now())), done)
    {
      hide Ok, ContinuationOk, Suspended, Root, Floor;
      PoppedOk(Now().now);
      NowValid(Now(), Popped(Now().now));
      EnoughToPop(Now().now);
      var result := Pop();
      var root := FindRoot();
      Suspend(root, false);
      if frames == [] {
        done := Some(result);
      } else {
        done := None;
      }
      stack := stack + [result];
    }

    /** OP_CALLCC up to the call of its receiver. */
    method Capture()
      requires Valid(Now()) && frames != []
      modifies this
      ensures Now() == CaptureStep(old(Now()))
    {
      hide Ok, Suspended, Root;
      var root := FindRoot();
      var k := Continuation(Slice(stack, frames, handlers), Some(frames[root].closure), Some(root));
      MoreContinuations(Now(), k);
      conts := conts + [k];
      Suspend(root, true);
    }

    /** call_closure for a suspended closure: the kept slice is copied above the caller and
        its offsets are rebased. */
    method Resume(id: nat, callName: Value, c: Call, ip: nat) returns (ok: bool)
      requires Valid(Now()) && Callee(Now().now, c) >= Floor(Now().now) && id in saved
      modifies this
      ensures match ResumeStep(old(Now()), id, callName, c, ip)
              case Next(t) => ok && Now() == t
              case _ => !ok
    {
      hide Valid, Ok, Floor, Raise, RaiseHandlers, Rebound;
      var at := |stack| - c.Total() - 1;
      var args := stack[|stack| - c.args..];
      var message := if c.hasMessage then stack[at + 1] else callName;
      if |frames| >= MAX_FRAMES {
        return false;
      }
      var co := saved[id];
      var slice := co.slice;
      if at + |slice.stack| > STACK_LIMIT || |frames| + |slice.frames| > MAX_FRAMES
         || |handlers| + |slice.handlers| > MAX_HANDLERS {
        return false;
      }
      var restoredBase := |frames|;
      stack := stack[..at] + slice.stack;
      var moved := RaiseAll(slice.frames, at);
      frames := SetIp(frames, ip) + moved;
      var movedHandlers := RaiseAllHandlers(slice.handlers, restoredBase, at);
      handlers := handlers + movedHandlers;
      saved := saved - {id};
      stack := Rebound(stack, at, message, args, c.passed);
      if co.needsResult {
        stack := stack + [if c.hasMessage then message else if args != [] then args[0] else Null];
      }
      ok := true;
    }

    /** OP_RETURN. */
    method Return() returns (done: Option<Value>)
      requires Ready()
      modifies this
      ensures Did(ReturnStep(old(Now())), done)
    {
      hide Ok, ContinuationOk, Floor, Trim;
      EnoughToPop(Now().now);
      ghost var s := Now();
      var result := Pop();
      var f := frames[|frames| - 1];
      frames := frames[..|frames| - 1];
      TrimHandlers(|frames|);
      if f.returnTo.Some? {
        var k := conts[f.returnTo.value].context;
        stack, frames, handlers := k.stack + [result], k.frames, k.handlers;
        return None;
      }
      stack := stack[..f.slots] + [result];
      assert stack == Returned(s.now, result).stack;
      done := if frames == [] then Some(result) else None;
    }

    /** call_value for a continuation: the invoker's context is captured and the
        continuation's context takes over. */
    method Invoke(k: nat, c: Call, ip: nat)
      requires Valid(Now()) && frames != [] && Callee(Now().now, c) >= Floor(Now().now) && k < |conts|
      modifies this
      ensures InvokeStep(old(Now()), k, c, ip) == Next(Now())
    {
      assert ContinuationOk(conts[k], conts);
      hide Valid, Floor, Monotone, HandlerOk;
      var at := |stack| - c.Total() - 1;
      var value := if c.Total() > 0 then stack[|stack| - c.Total()] else Null;
      var returnTo := Continuation(Slice(stack[..at], SetIp(frames, ip), handlers), None, None);
      var cont := conts[k];
      if cont.owner.Some? {
        saved := saved - {cont.owner.value};
      }
      stack, frames, handlers := cont.context.stack, cont.context.frames, cont.context.handlers;
      if cont.resume.Some? {
        var r := cont.resume.value;
        var slots := frames[r].slots;
        frames := frames[r := frames[r].(returnTo := Some(|conts|))];
        stack := stack[slots + 2 := value][slots + 11 := c.passed];
      }
      assert Slice(stack, frames, handlers) == Restored(cont, |conts|, value, c.passed);
      conts := conts + [returnTo];
      stack := stack + [value];
    }

    /** OP_INLINE_RETURN. */
    method InlineReturn() returns (done: Option<Value>)
      requires Ready()
      modifies this
      ensures Did(InlineReturnStep(old(Now())), done)
    {
      hide ContinuationOk, Floor, Trim, Root, Monotone, HandlerOk;
      ghost var s := Now().now;
      PoppedOk(s);
      EnoughToPop(s);
      var result := Pop();
      var root := FindRoot();
      var slots := frames[root].slots;
      saved := saved - {frames[root].closure};
      frames := frames[..root];
      TrimHandlers(root);
      stack := stack[..slots];
      assert Slice(stack, frames, handlers) == Under(Popped(s), root);
      done := if frames == [] then Some(result) else None;
      stack := stack + [result];
    }

    /** OP_THROW with a handler. */
    method Throw() returns (caught: bool)
      requires Ready()
      modifies this
      ensures caught == (old(handlers) != [])
      ensures caught ==> Did(ThrowStep(old(Now())), None)
    {
      hide Ok, ContinuationOk, Floor;
      ghost var s := Now().now;
      EnoughToPop(s);
      var exc := Pop();
      if handlers == [] {
        return false;
      }
      TopHandler(s);
      var h := handlers[|handlers| - 1];
      handlers := handlers[..|handlers| - 1];
      while |frames| > h.frameCount
        invariant h.frameCount <= |frames| <= |s.frames| && frames == s.frames[..|frames|]
        invariant stack == s.stack[..|s.stack| - 1] && handlers == s.handlers[..|s.handlers| - 1]
        invariant saved == old(saved) && conts == old(conts)
        decreases |frames|
      {
        frames := frames[..|frames| - 1];
      }
      frames := frames[|frames| - 1 := frames[|frames| - 1].(ip := h.catchIp)];
      stack := stack[..h.stackCount] + [exc];
      assert stack == Caught(s, exc).stack;
      caught := true;
    }
  }

  lemma RootInside(s: Slice, root: nat)
    requires Ok(s) && root < |s.frames|
    ensures s.frames[root].slots <= |s.stack|
  {
  }

  /** The offsets of copied frames are taken from the root's slots. */
  method LowerAll(fs: seq<Frame>, base: nat) returns (r: seq<Frame>)
    requires forall i | 0 <= i < |fs| :: fs[i].slots >= base
    ensures r == Lower(fs, base)
  {
    r := fs;
    for i := 0 to |fs|
      invariant |r| == |fs|
      invariant forall j | 0 <= j < |fs| :: r[j] == if j < i then fs[j].(slots := fs[j].slots - base) else fs[j]
    {
      r := r[i := r[i].(slots := r[i].slots - base)];
    }
  }

  method RaiseAll(fs: seq<Frame>, at: nat) returns (r: seq<Frame>)
    ensures r == Raise(fs, at)
  {
    r := fs;
    for i := 0 to |fs|
      invariant |r| == |fs|
      invariant forall j | 0 <= j < |fs| :: r[j] == if j < i then fs[j].(slots := fs[j].slots + at) else fs[j]
    {
      r := r[i := r[i].(slots := r[i].slots + at)];
    }
  }

  /** The first handler above the root: the scan of capture_coroutine_try_handlers. */
  method FindFirst(hs: seq<Handler>, root: nat) returns (first: nat)
    ensures first == First(hs, root)
  {
    first := 0;
    assert hs[0..] == hs;
    while first < |hs| && hs[first].frameCount <= root
      invariant first <= |hs| && First(hs, root) == first + First(hs[first..], root)
    {
      assert hs[first..][1..] == hs[first + 1..];
      first := first + 1;
    }
  }

  method LowerAllHandlers(hs: seq<Handler>, root: nat, base: nat) returns (r: seq<Handler>)
    requires forall i | 0 <= i < |hs| :: hs[i].frameCount >= root && hs[i].stackCount >= base
    ensures r == LowerHandlers(hs, root, base)
  {
    r := hs;
    for i := 0 to |hs|
      invariant |r| == |hs|
      invariant forall j | 0 <= j < |hs| ::
                  r[j] == if j < i then Handler(hs[j].catchIp, hs[j].frameCount - root, hs[j].stackCount - base) else hs[j]
    {
      r := r[i := Handler(r[i].catchIp, r[i].frameCount - root, r[i].stackCount - base)];
    }
  }

  method RaiseAllHandlers(hs: seq<Handler>, frames: nat, at: nat) returns (r: seq<Handler>)
    ensures r == RaiseHandlers(hs, frames, at)
  {
    r := hs;
    for i := 0 to |hs|
      invariant |r| == |hs|
      invariant forall j | 0 <= j < |hs| ::
                  r[j] == if j < i then Handler(hs[j].catchIp, hs[j].frameCount + frames, hs[j].stackCount + at) else hs[j]
    {
      r := r[i := Handler(r[i].catchIp, r[i].frameCount + frames, r[i].stackCount + at)];
    }
  }

  lemma EnoughToPop(s: Slice)
    requires Ok(s) && s.frames != [] && |s.stack| > Floor(s)
    ensures s.frames[|s.frames| - 1].slots < |s.stack| - 1
    ensures s.handlers != [] ==> s.handlers[|s.handlers| - 1].stackCount <= |s.stack| - 1
  {
    FloorBounds(s);
    PoppedOk(s);
    if s.handlers != [] {
      assert HandlerOk(s.handlers[|s.handlers| - 1], s.frames, |s.stack| - 1);
    }
  }

  lemma TopHandler(s: Slice)
    requires Ok(s) && s.handlers != []
    ensures var h := s.handlers[|s.handlers| - 1]; 1 <= h.frameCount <= |s.frames| && h.stackCount <= |s.stack|
  {
    assert HandlerOk(s.handlers[|s.handlers| - 1], s.frames, |s.stack|);
  }
}
