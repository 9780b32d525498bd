/** What an instruction does inside an activation does not depend on where the activation
    lies: its parts commute with placing the activation on another stack. */
module Relocation {
  import opened Values
  import opened Control
  import opened ControlSteps

  lemma FloorPlaced(under: Slice, s: Slice)
    requires Ok(under) && Rooted(s)
    ensures Place(under, s).frames != [] && Floor(Place(under, s)) == |under.stack| + Floor(s)
  {
    hide Monotone, FramesOk;
    var p := Place(under, s);
    if s.handlers == [] && under.handlers != [] {
      assert p.handlers == under.handlers;
      assert HandlerOk(under.handlers[|under.handlers| - 1], under.frames, |under.stack|);
    }
  }

  lemma SetIpPlaced(under: Slice, s: Slice, ip: nat)
    requires s.frames != []
    ensures Place(under, s.(frames := SetIp(s.frames, ip)))
            == Place(under, s).(frames := SetIp(Place(under, s).frames, ip))
  {
    assert Place(under, s.(frames := SetIp(s.frames, ip))).frames == SetIp(Place(under, s).frames, ip);
  }

  lemma PrefixPlaced(under: Slice, s: Slice, n: nat, m: nat, k: nat)
    requires n <= |s.stack| && m <= |s.frames| && k <= |s.handlers|
    ensures var p := Place(under, s);
            Place(under, Slice(s.stack[..n], s.frames[..m], s.handlers[..k])) ==
            Slice(p.stack[..|under.stack| + n], p.frames[..|under.frames| + m], p.handlers[..|under.handlers| + k])
  {
    var p, q := Place(under, s), Place(under, Slice(s.stack[..n], s.frames[..m], s.handlers[..k]));
    assert q.stack == p.stack[..|under.stack| + n];
    assert q.frames == p.frames[..|under.frames| + m];
    assert q.handlers == p.handlers[..|under.handlers| + k];
  }

  lemma OperandsPlaced(under: Slice, s: Slice, drop: nat, push: seq<Value>)
    requires drop <= |s.stack|
    ensures var p := Place(under, s);
            Place(under, s.(stack := s.stack[..|s.stack| - drop] + push)) == p.(stack := p.stack[..|p.stack| - drop] + push)
  {
    var p := Place(under, s);
    assert p.stack[..|p.stack| - drop] + push == under.stack + (s.stack[..|s.stack| - drop] + push);
  }

  lemma SlotPlaced(under: Slice, s: Slice, k: nat, v: Value)
    requires k < |s.stack|
    ensures var p := Place(under, s);
            Place(under, s.(stack := s.stack[k := v])) == p.(stack := p.stack[|under.stack| + k := v])
  {
    assert Place(under, s).stack[|under.stack| + k := v] == under.stack + s.stack[k := v];
  }

  lemma HandlerPlaced(under: Slice, s: Slice, catchIp: nat)
    ensures var p := Place(under, s);
            Place(under, s.(handlers := s.handlers + [Handler(catchIp, |s.frames|, |s.stack|)]))
            == p.(handlers := p.handlers + [Handler(catchIp, |p.frames|, |p.stack|)])
  {
    var p := Place(under, s);
    var q := Place(under, s.(handlers := s.handlers + [Handler(catchIp, |s.frames|, |s.stack|)]));
    assert q.handlers == p.handlers + [Handler(catchIp, |p.frames|, |p.stack|)];
  }

  lemma EnterPlaced(under: Slice, s: Slice, closure: nat, inline: bool, callName: Value, call: Call)
    requires Callee(s, call) >= 0
    ensures Callee(Place(under, s), call) == |under.stack| + Callee(s, call)
    ensures Place(under, Entered(s, closure, inline, callName, call))
            == Entered(Place(under, s), closure, inline, callName, call)
  {
    var p := Place(under, s);
    var at := Callee(s, call);
    assert Arguments(p, call) == Arguments(s, call);
    assert Message(p, call, callName) == Message(s, call, callName);
    assert p.stack[..|under.stack| + at + 1] == under.stack + s.stack[..at + 1];
    hide Arguments, Message;
    Regroup(under.stack, s.stack[..at + 1], [Message(s, call, callName)], Positional(Arguments(s, call)), [call.passed]);
    FramePlaced(under, s, Frame(closure, inline, 0, at, None));
  }

  lemma Regroup(u: seq<Value>, a: seq<Value>, b: seq<Value>, c: seq<Value>, d: seq<Value>)
    ensures u + (a + b + c + d) == u + a + b + c + d
  {
  }

  lemma FramePlaced(under: Slice, s: Slice, f: Frame)
    ensures under.frames + Raise(s.frames + [f], |under.stack|)
            == Place(under, s).frames + [f.(slots := f.slots + |under.stack|)]
  {
  }

  /** Everything above the given sizes goes and `v` is pushed. */
  function CutTo(s: Slice, n: nat, m: nat, k: nat, v: Value): Slice
    requires n <= |s.stack| && m <= |s.frames| && k <= |s.handlers|
  {
    Slice(s.stack[..n] + [v], s.frames[..m], s.handlers[..k])
  }

  lemma CutPlaced(under: Slice, s: Slice, n: nat, m: nat, k: nat, v: Value)
    requires n <= |s.stack| && m <= |s.frames| && k <= |s.handlers|
    ensures var p := Place(under, s);
            && |under.stack| + n <= |p.stack| && |under.frames| + m <= |p.frames| && |under.handlers| + k <= |p.handlers|
            && Place(under, CutTo(s, n, m, k, v)) == CutTo(p, |under.stack| + n, |under.frames| + m, |under.handlers| + k, v)
  {
    PrefixPlaced(under, s, n, m, k);
    assert under.stack + (s.stack[..n] + [v]) == under.stack + s.stack[..n] + [v];
  }

  lemma CaughtIsCut(s: Slice, exc: Value)
    requires Ok(s) && s.handlers != []
    ensures var h := s.handlers[|s.handlers| - 1];
            && 1 <= h.frameCount <= |s.frames| && h.stackCount <= |s.stack|
            && var cut := CutTo(s, h.stackCount, h.frameCount, |s.handlers| - 1, exc);
               Caught(s, exc) == cut.(frames := SetIp(cut.frames, h.catchIp))
  {
    hide Monotone, FramesOk, SetIp;
    LastOk(s);
  }

  lemma ReturnedIsCut(s: Slice, result: Value)
    requires Ok(s) && s.frames != []
    ensures var n := |s.frames| - 1;
            s.frames[n].slots <= |s.stack|
            && Returned(s, result) == CutTo(s, s.frames[n].slots, n, |Trim(s.handlers, n)|, result)
  {
    hide Trim, Monotone, HandlerOk;
  }

  lemma CaughtPlaced(under: Slice, s: Slice, exc: Value)
    requires Ok(under) && Rooted(s) && s.handlers != [] && Ok(Place(under, s))
    ensures Place(under, s).handlers != []
    ensures Caught(Place(under, s), exc) == Place(under, Caught(s, exc))
  {
    hide Ok, Caught, Place, SetIp, CutTo;
    var p := Place(under, s);
    TopHandlerPlaced(under, s);
    CaughtIsCut(s, exc);
    CaughtIsCut(p, exc);
    var h := s.handlers[|s.handlers| - 1];
    CutPlaced(under, s, h.stackCount, h.frameCount, |s.handlers| - 1, exc);
    CutFrames(s, h.stackCount, h.frameCount, |s.handlers| - 1, exc);
    SetIpPlaced(under, CutTo(s, h.stackCount, h.frameCount, |s.handlers| - 1, exc), h.catchIp);
  }

  lemma CutFrames(s: Slice, n: nat, m: nat, k: nat, v: Value)
    requires n <= |s.stack| && m <= |s.frames| && k <= |s.handlers|
    ensures |CutTo(s, n, m, k, v).frames| == m
  {
  }

  lemma TopHandlerPlaced(under: Slice, s: Slice)
    requires s.handlers != []
    ensures var p := Place(under, s);
            var h := s.handlers[|s.handlers| - 1];
            && |p.handlers| == |under.handlers| + |s.handlers|
            && p.handlers[|p.handlers| - 1] == Handler(h.catchIp, h.frameCount + |under.frames|, h.stackCount + |under.stack|)
  {
  }

  lemma LastOk(s: Slice)
    requires Ok(s) && s.handlers != []
    ensures HandlerOk(s.handlers[|s.handlers| - 1], s.frames, |s.stack|)
  {
  }

  lemma TrimLength(under: Slice, s: Slice, n: nat)
    requires Ok(under) && Ok(s) && n >= 1
    ensures |Trim(Place(under, s).handlers, |under.frames| + n)| == |under.handlers| + |Trim(s.handlers, n)|
  {
    hide Trim, Ok, Place;
    TrimPlaced(under, s, n);
  }

  lemma ReturnedPlaced(under: Slice, s: Slice, result: Value)
    requires Ok(under) && Rooted(s) && |s.frames| >= 2 && Ok(Place(under, s)) && Place(under, s).frames != []
    ensures Returned(Place(under, s), result) == Place(under, Returned(s, result))
  {
    hide Ok, Place, Trim, CutTo, Returned, SetIp;
    var p, n := Place(under, s), |s.frames| - 1;
    PlaceView(under, s);
    ReturnedIsCut(s, result);
    ReturnedIsCut(p, result);
    TrimLength(under, s, n);
    CutPlaced(under, s, s.frames[n].slots, n, |Trim(s.handlers, n)|, result);
  }

  lemma TrimPlaced(under: Slice, s: Slice, n: nat)
    requires Ok(under) && Ok(s) && n >= 1
    ensures Trim(Place(under, s).handlers, |under.frames| + n)
            == under.handlers + RaiseHandlers(Trim(s.handlers, n), |under.frames|, |under.stack|)
  {
    forall i | 0 <= i < |under.handlers| ensures under.handlers[i].frameCount <= |under.frames| {
      assert HandlerOk(under.handlers[i], under.frames, |under.stack|);
    }
    TrimJoin(under.handlers, s.handlers, |under.frames|, |under.stack|, n);
  }

  lemma TrimJoin(a: seq<Handler>, hs: seq<Handler>, frames: nat, d: nat, n: nat)
    requires Monotone(hs) && forall i | 0 <= i < |a| :: a[i].frameCount <= frames
    ensures Trim(a + RaiseHandlers(hs, frames, d), frames + n) == a + RaiseHandlers(Trim(hs, n), frames, d)
  {
    TrimIsPrefix(hs, n);
    FirstSplits(hs, n);
    hide Trim, First, Monotone, RaiseHandlers;
    var k := First(hs, n);
    JoinSplits(a, hs, frames, d, n, k);
    TrimTo(a + RaiseHandlers(hs, frames, d), frames + n, |a| + k);
    JoinPrefix(a, hs, frames, d, k);
  }

  lemma JoinSplits(a: seq<Handler>, hs: seq<Handler>, frames: nat, d: nat, n: nat, k: nat)
    requires k <= |hs| && forall i | 0 <= i < |a| :: a[i].frameCount <= frames
    requires (forall i | 0 <= i < k :: hs[i].frameCount <= n) && (forall i | k <= i < |hs| :: hs[i].frameCount > n)
    ensures var all := a + RaiseHandlers(hs, frames, d);
            && (forall i | 0 <= i < |a| + k :: all[i].frameCount <= frames + n)
            && (forall i | |a| + k <= i < |all| :: all[i].frameCount > frames + n)
  {
    var all := a + RaiseHandlers(hs, frames, d);
    forall i | |a| + k <= i < |all| ensures all[i].frameCount > frames + n {
      assert hs[i - |a|].frameCount > n;
    }
    forall i | 0 <= i < |a| + k ensures all[i].frameCount <= frames + n {
      if i >= |a| { assert hs[i - |a|].frameCount <= n; }
    }
  }

  lemma JoinPrefix(a: seq<Handler>, hs: seq<Handler>, frames: nat, d: nat, k: nat)
    requires k <= |hs|
    ensures (a + RaiseHandlers(hs, frames, d))[..|a| + k] == a + RaiseHandlers(hs[..k], frames, d)
  {
  }

  lemma StillRooted(s: Slice, i: Local)
    requires Rooted(s) && LocalStep(s, i).Some?
    ensures Rooted(LocalStep(s, i).value)
  {
    LocalKeeps(s, i);
    hide Ok;
  }

  /** What an instruction sees of a placed activation. */
  lemma PlaceView(under: Slice, s: Slice)
    requires s.frames != []
    ensures var p := Place(under, s);
            && |p.stack| == |under.stack| + |s.stack| && |p.frames| == |under.frames| + |s.frames|
            && (s.stack != [] ==> Top(p) == Top(s))
            && p.frames[|p.frames| - 1].slots == |under.stack| + s.frames[|s.frames| - 1].slots
            && p.frames[|p.frames| - 1].returnTo == s.frames[|s.frames| - 1].returnTo
            && |p.handlers| == |under.handlers| + |s.handlers|
            && (s.handlers != [] ==>
                  p.handlers[|p.handlers| - 1].frameCount == |under.frames| + s.handlers[|s.handlers| - 1].frameCount)
  {
  }

  /** One instruction inside a frame: step and place is place and step, and what one of
      them refuses the other refuses. */
  lemma LocalCommutes(under: Slice, s: Slice, i: Local)
    requires Ok(under) && Rooted(s)
    ensures Ok(Place(under, s)) && Place(under, s).frames != []
    ensures LocalStep(s, i).Some? ==> Rooted(LocalStep(s, i).value)
    ensures LocalStep(Place(under, s), i) ==
            if LocalStep(s, i).None? then None else Some(Place(under, LocalStep(s, i).value))
  {
    hide Ok, LocalStep, Place;
    if LocalStep(s, i).Some? { StillRooted(s, i); }
    PlaceOk(under, s);
    FloorPlaced(under, s);
    match i
    case Operands(_, _, _) => StackCommutes(under, s, i);
    case StoreSlot(_, _, _) => StackCommutes(under, s, i);
    case PushHandler(_, _) => HandlersCommute(under, s, i);
    case PopHandler(_) => HandlersCommute(under, s, i);
  }

  lemma StepOperands(s: Slice, drop: nat, push: seq<Value>, ip: nat)
    requires Ok(s) && s.frames != []
    ensures LocalStep(s, Operands(drop, push, ip)) ==
            if |s.stack| < Floor(s) + drop then None
            else Some(s.(stack := s.stack[..|s.stack| - drop] + push).(frames := SetIp(s.frames, ip)))
  {
    hide Ok, Floor, SetIp;
  }

  lemma StepSlot(s: Slice, slot: nat, v: Value, ip: nat)
    requires Ok(s) && s.frames != [] && s.frames[|s.frames| - 1].slots + FRAME_SLOTS <= |s.stack|
    ensures LocalStep(s, StoreSlot(slot, v, ip)) ==
            if slot >= FRAME_SLOTS then None
            else Some(s.(stack := s.stack[s.frames[|s.frames| - 1].slots + slot := v]).(frames := SetIp(s.frames, ip)))
  {
    hide Ok, Floor, SetIp;
  }

  lemma StackCommutes(under: Slice, s: Slice, i: Local)
    requires Ok(under) && Rooted(s) && Ok(Place(under, s)) && (i.Operands? || i.StoreSlot?)
    requires Place(under, s).frames != [] && Floor(Place(under, s)) == |under.stack| + Floor(s)
    ensures LocalStep(Place(under, s), i) ==
            if LocalStep(s, i).None? then None else Some(Place(under, LocalStep(s, i).value))
  {
    hide Ok, Floor, Place, LocalStep, SetIp;
    FloorBounds(s);
    PlaceView(under, s);
    var p := Place(under, s);
    if i.Operands? {
      StepOperands(s, i.drop, i.push, i.ip);
      StepOperands(p, i.drop, i.push, i.ip);
      if |s.stack| >= Floor(s) + i.drop {
        OperandsPlaced(under, s, i.drop, i.push);
        SetIpPlaced(under, s.(stack := s.stack[..|s.stack| - i.drop] + i.push), i.ip);
      }
    } else {
      var k := s.frames[|s.frames| - 1].slots + i.slot;
      StepSlot(s, i.slot, i.v, i.ip);
      StepSlot(p, i.slot, i.v, i.ip);
      if i.slot < FRAME_SLOTS {
        SlotPlaced(under, s, k, i.v);
        SetIpPlaced(under, s.(stack := s.stack[k := i.v]), i.ip);
      }
    }
  }

  lemma HandlersCommute(under: Slice, s: Slice, i: Local)
    requires Ok(under) && Rooted(s) && Ok(Place(under, s)) && (i.PushHandler? || i.PopHandler?)
    requires Place(under, s).frames != []
    ensures LocalStep(Place(under, s), i) ==
            if LocalStep(s, i).None? then None else Some(Place(under, LocalStep(s, i).value))
  {
    hide Ok, Floor, Place, SetIp;
    PlaceView(under, s);
    if i.PushHandler? {
      HandlerPlaced(under, s, i.catchIp);
      SetIpPlaced(under, s.(handlers := s.handlers + [Handler(i.catchIp, |s.frames|, |s.stack|)]), i.ip);
    } else if s.handlers == [] {
      NoHandlers(under, s);
    } else if s.handlers[|s.handlers| - 1].frameCount == |s.frames| {
      PrefixPlaced(under, s, |s.stack|, |s.frames|, |s.handlers| - 1);
      WholePrefix(s);
      WholePrefix(Place(under, s));
      SetIpPlaced(under, s.(handlers := s.handlers[..|s.handlers| - 1]), i.ip);
    }
  }

  /** Without handlers of its own the activation finds none of its frames. */
  lemma NoHandlers(under: Slice, s: Slice)
    requires Ok(under) && s.handlers == [] && s.frames != []
    ensures var p := Place(under, s);
            p.handlers == under.handlers
            && (p.handlers != [] ==> p.handlers[|p.handlers| - 1].frameCount <= |under.frames| < |p.frames|)
  {
    if under.handlers != [] { LastOk(under); }
  }

  lemma WholePrefix(s: Slice)
    ensures s.stack[..|s.stack|] == s.stack && s.frames[..|s.frames|] == s.frames
  {
  }
}
