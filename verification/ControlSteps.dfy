/** The instructions that change the control state: operands, handlers, calls, returns,
    yield and resume, callcc and continuations, abort. */
module ControlSteps {
  import opened Values
  import opened Control

  const MAX_FRAMES := 512
  const MAX_HANDLERS := 256
  const STACK_LIMIT := 4096

  /** What a call instruction brings along: the callee and `args` arguments lie on top of
      the stack, a message in front of the arguments; `passed` is the array object made
      for `@_`. */
  datatype Call = Call(args: nat, hasMessage: bool, passed: Value) {
    function Total(): nat { if hasMessage then args + 1 else args }
  }

  /** Instructions that stay inside the frame they start in. */
  datatype Local =
    | Operands(drop: nat, push: seq<Value>, ip: nat)   // anything on operands, jumps included
    | StoreSlot(slot: nat, v: Value, ip: nat)
    | PushHandler(catchIp: nat, ip: nat)
    | PopHandler(ip: nat)

  /** The top frame continues at `ip`. */
  function SetIp(fs: seq<Frame>, ip: nat): (r: seq<Frame>)
    ensures |r| == |fs|
  {
    if fs == [] then fs else fs[|fs| - 1 := fs[|fs| - 1].(ip := ip)]
  }

  /** Compiled code never pops below this height: the fixed slots of its frame, or the
      height at which it entered its innermost try. */
  function Floor(s: Slice): nat {
    if s.frames == [] then 0
    else
      var low := s.frames[|s.frames| - 1].slots + FRAME_SLOTS;
      if s.handlers == [] || s.handlers[|s.handlers| - 1].frameCount != |s.frames| then low
      else if low < s.handlers[|s.handlers| - 1].stackCount then s.handlers[|s.handlers| - 1].stackCount
      else low
  }

  function Top(s: Slice): Value
    requires s.stack != []
  {
    s.stack[|s.stack| - 1]
  }

  function Popped(s: Slice): Slice
    requires s.stack != []
  {
    s.(stack := s.stack[..|s.stack| - 1])
  }

  function Pushed(s: Slice, v: Value): Slice { s.(stack := s.stack + [v]) }

  /** The nine slots for positional arguments. */
  function Positional(args: seq<Value>): (r: seq<Value>)
    ensures |r| == 9
    ensures forall i | 0 <= i < 9 :: r[i] == if i < |args| then args[i] else Null
  {
    seq(9, i => if 0 <= i < |args| then args[i] else Null)
  }

  /** Where the callee stands. */
  function Callee(s: Slice, c: Call): int { |s.stack| - c.Total() - 1 }

  function Arguments(s: Slice, c: Call): (r: seq<Value>)
    requires Callee(s, c) >= 0
    ensures |r| == c.args
  {
    s.stack[|s.stack| - c.args..]
  }

  function Message(s: Slice, c: Call, callName: Value): Value
    requires Callee(s, c) >= 0
  {
    if c.hasMessage then s.stack[Callee(s, c) + 1] else callName
  }

  /** call_closure for a closure that is not suspended. */
  function Entered(s: Slice, closure: nat, inline: bool, callName: Value, c: Call): Slice
    requires Callee(s, c) >= 0
  {
    var slots := Callee(s, c);
    Slice(s.stack[..slots + 1] + [Message(s, c, callName)] + Positional(Arguments(s, c)) + [c.passed],
          s.frames + [Frame(closure, inline, 0, slots, None)], s.handlers)
  }

  /** A handler takes the exception: its frame continues at the catch code, at the height
      of the try. */
  function Caught(s: Slice, exc: Value): Slice
    requires Ok(s) && s.handlers != []
  {
    var h := s.handlers[|s.handlers| - 1];
    Slice(s.stack[..h.stackCount] + [exc], SetIp(s.frames[..h.frameCount], h.catchIp), s.handlers[..|s.handlers| - 1])
  }

  /** The top frame goes and its result takes the place of callee and arguments. */
  function Returned(s: Slice, result: Value): Slice
    requires Ok(s) && s.frames != []
  {
    var n := |s.frames| - 1;
    Slice(s.stack[..s.frames[n].slots] + [result], s.frames[..n], Trim(s.handlers, n))
  }

  /** One instruction inside a frame; None when it would reach below what compiled code
      reaches. */
  function LocalStep(s: Slice, i: Local): Option<Slice>
    requires Ok(s) && s.frames != []
  {
    match i
    case Operands(drop, push, ip) =>
      if |s.stack| < Floor(s) + drop then None
      else Some(s.(stack := s.stack[..|s.stack| - drop] + push, frames := SetIp(s.frames, ip)))
    case StoreSlot(slot, v, ip) =>
      if slot >= FRAME_SLOTS then None
      else Some(s.(stack := s.stack[s.frames[|s.frames| - 1].slots + slot := v], frames := SetIp(s.frames, ip)))
    case PushHandler(catchIp, ip) =>
      Some(s.(handlers := s.handlers + [Handler(catchIp, |s.frames|, |s.stack|)], frames := SetIp(s.frames, ip)))
    case PopHandler(ip) =>
      if s.handlers == [] || s.handlers[|s.handlers| - 1].frameCount != |s.frames| then None
      else Some(s.(handlers := s.handlers[..|s.handlers| - 1], frames := SetIp(s.frames, ip)))
  }

  // ----- local instructions keep the invariant -----

  lemma SetIpOk(s: Slice, ip: nat)
    requires Ok(s)
    ensures Ok(s.(frames := SetIp(s.frames, ip)))
    ensures Floor(s.(frames := SetIp(s.frames, ip))) == Floor(s)
  {
    hide Monotone;
    var t := s.(frames := SetIp(s.frames, ip));
    forall a | 0 <= a < |t.handlers| ensures HandlerOk(t.handlers[a], t.frames, |t.stack|) {
      assert HandlerOk(s.handlers[a], s.frames, |s.stack|);
    }
  }

  /** Any stack at least as high as the floor will do. */
  lemma StackOk(s: Slice, stack: seq<Value>)
    requires Ok(s) && |stack| >= Floor(s)
    ensures Ok(s.(stack := stack))
  {
    var t := s.(stack := stack);
    var n := |s.frames|;
    forall a | 0 <= a < |t.handlers| ensures HandlerOk(t.handlers[a], t.frames, |t.stack|) {
      var h := s.handlers[a];
      assert HandlerOk(h, s.frames, |s.stack|);
      if h.frameCount == n { LastHandler(s, a); }
    }
  }

  /** A handler of the top frame lies at or below the floor. */
  lemma LastHandler(s: Slice, a: nat)
    requires Ok(s) && s.frames != [] && a < |s.handlers| && s.handlers[a].frameCount == |s.frames|
    ensures s.handlers[a].stackCount <= Floor(s)
  {
    var last := |s.handlers| - 1;
    assert HandlerOk(s.handlers[last], s.frames, |s.stack|);
    if a < last { assert s.handlers[a].frameCount <= s.handlers[last].frameCount; }
  }

  lemma FloorBounds(s: Slice)
    requires Ok(s)
    ensures Floor(s) <= |s.stack|
    ensures s.frames != [] ==> s.frames[|s.frames| - 1].slots + FRAME_SLOTS <= Floor(s)
  {
    if s.handlers != [] { assert HandlerOk(s.handlers[|s.handlers| - 1], s.frames, |s.stack|); }
  }

  lemma HandlerPushed(s: Slice, catchIp: nat)
    requires Ok(s) && s.frames != []
    ensures Ok(s.(handlers := s.handlers + [Handler(catchIp, |s.frames|, |s.stack|)]))
  {
    var h := Handler(catchIp, |s.frames|, |s.stack|);
    var hs := s.handlers + [h];
    forall a | 0 <= a < |hs| ensures HandlerOk(hs[a], s.frames, |s.stack|) {
      if a < |s.handlers| { assert HandlerOk(s.handlers[a], s.frames, |s.stack|); }
    }
    forall a, b | 0 <= a < b < |hs|
      ensures hs[a].frameCount <= hs[b].frameCount && hs[a].stackCount <= hs[b].stackCount
    {
      assert HandlerOk(s.handlers[a], s.frames, |s.stack|);
    }
  }

  /** A new frame on top, its slots at or above the floor. */
  lemma EnteredOk(s: Slice, f: Frame, stack: seq<Value>)
    requires Ok(s) && Floor(s) <= f.slots && f.slots + FRAME_SLOTS <= |stack|
    ensures Ok(Slice(stack, s.frames + [f], s.handlers))
  {
    var t := Slice(stack, s.frames + [f], s.handlers);
    var n := |s.frames|;
    FloorBounds(s);
    forall a | 0 <= a < |t.handlers| ensures HandlerOk(t.handlers[a], t.frames, |t.stack|) {
      var h := s.handlers[a];
      assert HandlerOk(h, s.frames, |s.stack|);
      if h.frameCount == n { LastHandler(s, a); }
    }
  }

  lemma CaughtOk(s: Slice, exc: Value)
    requires Ok(s) && s.handlers != []
    ensures Ok(Caught(s, exc)) && Caught(s, exc).frames != []
  {
    var last := |s.handlers| - 1;
    var h := s.handlers[last];
    assert HandlerOk(h, s.frames, |s.stack|);
    var fs := s.frames[..h.frameCount];
    var cut := Slice(s.stack[..h.stackCount], fs, s.handlers[..last]);
    CutToHandler(s);
    SetIpOk(cut, h.catchIp);
    var t := cut.(frames := SetIp(fs, h.catchIp));
    FloorBounds(t);
    StackOk(t, t.stack + [exc]);
  }

  lemma CutToHandler(s: Slice)
    requires Ok(s) && s.handlers != []
    ensures var h := s.handlers[|s.handlers| - 1];
            h.frameCount <= |s.frames| && h.stackCount <= |s.stack|
            && Ok(Slice(s.stack[..h.stackCount], s.frames[..h.frameCount], s.handlers[..|s.handlers| - 1]))
  {
    var last := |s.handlers| - 1;
    var h := s.handlers[last];
    assert HandlerOk(h, s.frames, |s.stack|);
    forall a | 0 <= a < last ensures HandlerOk(s.handlers[a], s.frames[..h.frameCount], h.stackCount) {
      assert HandlerOk(s.handlers[a], s.frames, |s.stack|);
      assert s.handlers[a].frameCount <= h.frameCount;
    }
  }

  lemma ReturnedOk(s: Slice, result: Value)
    requires Ok(s) && |s.frames| >= 1
    ensures Ok(Returned(s, result))
    ensures |s.frames| >= 2 ==> Returned(s, result).frames != []
  {
    var n := |s.frames| - 1;
    UnderOk(s, n);
    var u := Under(s, n);
    if n > 0 {
      FloorBounds(u);
      StackOk(u, u.stack + [result]);
    } else if u.handlers != [] {
      HandlerHasFrame(u);
    }
  }

  lemma HandlerHasFrame(u: Slice)
    requires Ok(u) && u.handlers != []
    ensures u.frames != []
  {
    assert HandlerOk(u.handlers[0], u.frames, |u.stack|);
  }

  lemma LocalKeeps(s: Slice, i: Local)
    requires Ok(s) && s.frames != [] && LocalStep(s, i).Some?
    ensures Ok(LocalStep(s, i).value) && LocalStep(s, i).value.frames != []
  {
    hide Ok, Floor;
    FloorBounds(s);
    var n := |s.frames| - 1;
    match i
    case Operands(drop, push, ip) =>
      SetIpOk(s, ip);
      StackOk(s.(frames := SetIp(s.frames, ip)), s.stack[..|s.stack| - drop] + push);
    case StoreSlot(slot, v, ip) =>
      SetIpOk(s, ip);
      StackOk(s.(frames := SetIp(s.frames, ip)), s.stack[s.frames[n].slots + slot := v]);
    case PushHandler(catchIp, ip) =>
      SetIpOk(s, ip);
      HandlerPushed(s.(frames := SetIp(s.frames, ip)), catchIp);
    case PopHandler(ip) =>
      SetIpOk(s, ip);
      HandlerPopped(s.(frames := SetIp(s.frames, ip)));
  }

  lemma HandlerPopped(s: Slice)
    requires Ok(s) && s.handlers != []
    ensures Ok(s.(handlers := s.handlers[..|s.handlers| - 1]))
  {
  }
}
