/** Whole runs inside an activation, with everything they call, suspend, resume, capture or
    catch: they do not depend on where the activation lies and never touch what lies below
    it. */
module Activations {
  import opened Values
  import opened Control
  import opened ControlSteps
  import opened Relocation
  import opened Coroutines
  import opened ControlRuns

  /** The instruction does not leave the activation whose root is frame `n`. Invoking a
      continuation, and returning through one, replaces the whole machine. */
  predicate Within(t: Slice, i: Instr, n: nat)
    requires t.frames != []
  {
    match i
    case Do(_) => true
    case CallClosure(_, _, _, _, _) => true
    case Invoke(_, _, _) => false
    case CallCC(_, _) => Root(t.frames) > n
    case Yield => Root(t.frames) > n
    case InlineReturn => Root(t.frames) > n
    case Return => |t.frames| > n + 1 && t.frames[|t.frames| - 1].returnTo.None?
    case Abort(_) => |t.frames| > n + 1
    case Raise => t.handlers != [] && t.handlers[|t.handlers| - 1].frameCount > n
  }

  /** No instruction of the run leaves the activation. */
  predicate RunWithin(s: State, run: seq<Instr>, n: nat)
    requires Live(s)
    decreases |run|
  {
    run != [] ==>
      && Within(s.now, run[0], n)
      && (Step(s, run[0]).Next? ==> (StepLive(s, run[0]); RunWithin(Step(s, run[0]).s, run[1..], n)))
  }

  /** `p` is the machine `a` placed on `under`. Continuations are equally many, but those
      captured in `p` have `under` below them. */
  ghost predicate Placed(under: Slice, p: State, a: State) {
    Ok(under) && Rooted(a.now) && p.now == Place(under, a.now) && p.saved == a.saved && |p.conts| == |a.conts|
  }

  // ----- parts of a placed activation -----

  lemma PushPlaced(under: Slice, s: Slice, v: Value)
    ensures Pushed(Place(under, s), v) == Place(under, Pushed(s, v))
  {
    assert under.stack + s.stack + [v] == under.stack + (s.stack + [v]);
  }

  lemma PopPlaced(under: Slice, s: Slice)
    requires s.stack != []
    ensures Place(under, s).stack != [] && Popped(Place(under, s)) == Place(under, Popped(s))
  {
    var p := Place(under, s);
    assert p.stack[..|p.stack| - 1] == under.stack + s.stack[..|s.stack| - 1];
  }

  lemma PlaceTwice(under: Slice, middle: Slice, s: Slice)
    ensures Place(Place(under, middle), s) == Place(under, Place(middle, s))
  {
    var a, b := Place(Place(under, middle), s), Place(under, Place(middle, s));
    assert a.stack == b.stack;
    assert a.frames == b.frames;
    assert a.handlers == b.handlers;
  }

  lemma PlacedStack(under: Slice, s: Slice)
    ensures Place(under, s).stack == under.stack + s.stack
  {
  }

  lemma RootPlaced(under: Slice, s: Slice)
    requires s.frames != []
    ensures var p := Place(under, s);
            && p.frames != [] && (Root(p.frames) > |under.frames| <==> Root(s.frames) > 0)
            && (Root(s.frames) > 0 ==>
                  && Root(p.frames) == |under.frames| + Root(s.frames)
                  && p.frames[Root(p.frames)].closure == s.frames[Root(s.frames)].closure)
  {
    hide Root;
    var p := Place(under, s);
    var n, q := |under.frames|, Root(s.frames);
    FrameAt(under, s, q);
    forall i | n + q < i < |p.frames| ensures p.frames[i].inline { FrameAt(under, s, i - n); }
    if q > 0 { RootIs(p.frames, n + q); }
  }

  lemma FrameAt(under: Slice, s: Slice, i: nat)
    requires i < |s.frames|
    ensures var p := Place(under, s);
            && |p.frames| == |under.frames| + |s.frames|
            && p.frames[|under.frames| + i] == s.frames[i].(slots := s.frames[i].slots + |under.stack|)
  {
  }

  lemma RootIs(fs: seq<Frame>, r: nat)
    requires r < |fs| && (r > 0 ==> !fs[r].inline) && forall i | r < i < |fs| :: fs[i].inline
    ensures Root(fs) == r
  {
    hide Root;
    var q := Root(fs);
  }

  lemma UnderPlaced(under: Slice, s: Slice, q: nat)
    requires Ok(under) && Rooted(s) && 0 < q < |s.frames| && s.frames[q].slots <= |s.stack|
    ensures var p := Place(under, s);
            && |under.frames| + q < |p.frames| && p.frames[|under.frames| + q].slots <= |p.stack|
            && Under(p, |under.frames| + q) == Place(under, Under(s, q))
  {
    hide Ok, Trim;
    TrimLength(under, s, q);
    PrefixPlaced(under, s, s.frames[q].slots, q, |Trim(s.handlers, q)|);
  }

  lemma OverPlaced(under: Slice, s: Slice, q: nat)
    requires Ok(under) && Rooted(s) && 0 < q < |s.frames| && Ok(Place(under, s))
    ensures |Place(under, s).frames| == |under.frames| + |s.frames|
    ensures Over(Place(under, s), |under.frames| + q) == Over(s, q)
  {
    hide Ok, Trim, First;
    var p, n := Place(under, s), |under.frames|;
    TrimLength(under, s, q);
    AboveBase(s, q);
    AboveBase(p, n + q);
    FrameAt(under, s, q);
    RootInStack(s, q);
    FirstIsTrim(s, q);
    FirstIsTrim(p, n + q);
    var base, k := s.frames[q].slots, First(s.handlers, q);
    assert (under.stack + s.stack)[|under.stack| + base..] == s.stack[base..];
    LoweredFrames(under, s, q, base);
    LoweredHandlers(under, s, q, base, k);
  }

  lemma FirstIsTrim(s: Slice, q: nat)
    requires Ok(s)
    ensures First(s.handlers, q) == |Trim(s.handlers, q)|
  {
    TrimIsPrefix(s.handlers, q);
  }

  lemma LoweredFrames(under: Slice, s: Slice, q: nat, base: nat)
    requires q < |s.frames| && forall i | 0 <= i < |s.frames[q..]| :: s.frames[q..][i].slots >= base
    ensures var fs := Place(under, s).frames[|under.frames| + q..];
            && (forall i | 0 <= i < |fs| :: fs[i].slots >= |under.stack| + base)
            && Lower(fs, |under.stack| + base) == Lower(s.frames[q..], base)
  {
    hide Place;
    Sizes(under, s);
    var fs := Place(under, s).frames[|under.frames| + q..];
    forall i | 0 <= i < |fs| ensures fs[i] == s.frames[q..][i].(slots := s.frames[q..][i].slots + |under.stack|) {
      FrameAt(under, s, q + i);
    }
  }

  lemma LoweredHandlers(under: Slice, s: Slice, q: nat, base: nat, k: nat)
    requires k <= |s.handlers|
    requires forall i | 0 <= i < |s.handlers[k..]| :: s.handlers[k..][i].frameCount >= q && s.handlers[k..][i].stackCount >= base
    ensures var hs := Place(under, s).handlers[|under.handlers| + k..];
            && (forall i | 0 <= i < |hs| :: hs[i].frameCount >= |under.frames| + q && hs[i].stackCount >= |under.stack| + base)
            && LowerHandlers(hs, |under.frames| + q, |under.stack| + base) == LowerHandlers(s.handlers[k..], q, base)
  {
    var hs := Place(under, s).handlers[|under.handlers| + k..];
    forall i | 0 <= i < |hs|
      ensures var h := s.handlers[k..][i]; hs[i] == Handler(h.catchIp, h.frameCount + |under.frames|, h.stackCount + |under.stack|)
    {
    }
  }

  lemma CallerPlaced(under: Slice, s: Slice, c: Call, ip: nat)
    requires s.frames != [] && Callee(s, c) >= 0
    ensures Callee(Place(under, s), c) == |under.stack| + Callee(s, c)
    ensures Caller(Place(under, s), c, ip) == Place(under, Caller(s, c, ip))
    ensures Arguments(Place(under, s), c) == Arguments(s, c)
    ensures forall callName :: Message(Place(under, s), c, callName) == Message(s, c, callName)
  {
    hide SetIp;
    var p := Place(under, s);
    SetIpPlaced(under, s, ip);
    assert p.stack[..Callee(p, c)] == under.stack + s.stack[..Callee(s, c)];
    assert p.stack[|p.stack| - c.args..] == s.stack[|s.stack| - c.args..];
  }

  /** The slots a resumption rebinds are counted from where the activation lies. */
  lemma ReboundAbove(stack: seq<Value>, rest: seq<Value>, base: nat, message: Value, args: seq<Value>, passed: Value)
    ensures Rebound(stack + rest, |stack| + base, message, args, passed) == stack + Rebound(rest, base, message, args, passed)
  {
  }

  // ----- one instruction -----

  /** The first frame of an activation stays where it is. */
  predicate Based(t: Slice) { t.frames != [] && t.frames[0].slots == 0 }

  lemma CallWithin(under: Slice, p: State, a: State, id: nat, inline: bool, callName: Value, c: Call, ip: nat)
    requires Valid(p) && Valid(a) && Placed(under, p, a)
    requires Callee(p.now, c) >= Floor(p.now) && CallStep(p, id, inline, callName, c, ip).Next?
    ensures Callee(a.now, c) >= Floor(a.now) && CallStep(a, id, inline, callName, c, ip).Next?
    ensures var q, b := CallStep(p, id, inline, callName, c, ip).s, CallStep(a, id, inline, callName, c, ip).s;
            Placed(under, q, b)
  {
    hide Valid, Ok, Place, SetIp, Floor, Rebound, Entered, ResumeStep;
    FloorPlaced(under, a.now);
    PlaceView(under, a.now);
    assert Callee(p.now, c) == |under.stack| + Callee(a.now, c);
    CallValid(a, id, inline, callName, c, ip);
    if id in a.saved {
      ResumeWithin(under, p, a, id, callName, c, ip);
    } else {
      SetIpPlaced(under, a.now, ip);
      EnterPlaced(under, a.now.(frames := SetIp(a.now.frames, ip)), id, inline, callName, c);
      EnteredBased(a.now, id, inline, callName, c, ip);
    }
    CallLive(a, id, inline, callName, c, ip);
    LiveBased(CallStep(a, id, inline, callName, c, ip).s);
  }

  lemma LiveBased(s: State)
    requires Valid(s) && Based(s.now)
    ensures Rooted(s.now) && Ok(s.now)
  {
    hide Ok;
  }

  lemma EnteredBased(s: Slice, id: nat, inline: bool, callName: Value, c: Call, ip: nat)
    requires Based(s) && Callee(s, c) >= 0
    ensures Based(Entered(s.(frames := SetIp(s.frames, ip)), id, inline, callName, c))
  {
  }

  lemma ResumeWithin(under: Slice, p: State, a: State, id: nat, callName: Value, c: Call, ip: nat)
    requires Valid(p) && Valid(a) && Placed(under, p, a) && id in a.saved
    requires Callee(p.now, c) >= Floor(p.now) && Callee(a.now, c) >= Floor(a.now)
    requires ResumeStep(p, id, callName, c, ip).Next?
    ensures ResumeStep(a, id, callName, c, ip).Next?
    ensures var q, b := ResumeStep(p, id, callName, c, ip).s, ResumeStep(a, id, callName, c, ip).s;
            q.now == Place(under, b.now) && q.saved == b.saved && |q.conts| == |b.conts| && Based(b.now)
  {
    hide Valid, Ok, Place, SetIp, Floor, Rebound, Caller, Arguments, Message;
    CallerPlaced(under, a.now, c, ip);
    var co := a.saved[id];
    var below := Caller(a.now, c, ip);
    PlaceTwice(under, below, co.slice);
    ResumedPlaced(under, below, co, Message(a.now, c, callName), Arguments(a.now, c), c.passed);
    Sizes(under, a.now);
    Sizes(under, Place(below, co.slice));
    CallerBased(a.now, c, ip);
    PlaceBased(below, co.slice);
    ResumeIs(p, id, callName, c, ip);
    ResumeIs(a, id, callName, c, ip);
  }

  lemma ResumeIs(s: State, id: nat, callName: Value, c: Call, ip: nat)
    requires Valid(s) && Callee(s.now, c) >= Floor(s.now) && id in s.saved
    ensures var args, message := Arguments(s.now, c), Message(s.now, c, callName);
            var result := if c.hasMessage then message else if args != [] then args[0] else Null;
            ResumeStep(s, id, callName, c, ip).Next? ==>
              ResumeStep(s, id, callName, c, ip).s ==
              State(Resumed(Caller(s.now, c, ip), s.saved[id], message, args, c.passed, result), s.saved - {id}, s.conts)
  {
    hide Valid, Ok, Place, SetIp, Floor, Rebound, Caller, Arguments, Message;
  }

  lemma Sizes(under: Slice, s: Slice)
    ensures var p := Place(under, s);
            |p.stack| == |under.stack| + |s.stack| && |p.frames| == |under.frames| + |s.frames| && |p.handlers| == |under.handlers| + |s.handlers|
  {
  }

  lemma CallerBased(s: Slice, c: Call, ip: nat)
    requires Based(s) && Callee(s, c) >= 0
    ensures Based(Caller(s, c, ip))
  {
  }

  lemma PlaceBased(below: Slice, s: Slice)
    requires Based(below)
    ensures Based(Place(below, s))
  {
  }

  /** The activation on top with its slots rebound, and the result it waits for. */
  function Resumed(below: Slice, co: Coroutine, message: Value, args: seq<Value>, passed: Value, result: Value): Slice {
    var placed := Place(below, co.slice);
    var ready := placed.(stack := Rebound(placed.stack, |below.stack|, message, args, passed));
    if co.needsResult then Pushed(ready, result) else ready
  }

  lemma ResumedPlaced(under: Slice, below: Slice, co: Coroutine, message: Value, args: seq<Value>, passed: Value)
    ensures forall result ::
              Resumed(Place(under, below), co, message, args, passed, result)
              == Place(under, Resumed(below, co, message, args, passed, result))
  {
    hide Rebound;
    PlaceTwice(under, below, co.slice);
    var placed := Place(below, co.slice);
    ReboundAbove(under.stack, placed.stack, |below.stack|, message, args, passed);
    var ready := placed.(stack := Rebound(placed.stack, |below.stack|, message, args, passed));
    forall result
      ensures Resumed(Place(under, below), co, message, args, passed, result)
              == Place(under, Resumed(below, co, message, args, passed, result))
    {
      PushPlaced(under, ready, result);
    }
  }

  lemma ReturnWithin(under: Slice, p: Slice, a: Slice, v: Value)
    requires Ok(under) && Rooted(a) && Ok(p) && p == Place(under, a) && |p.frames| > |under.frames| + 1
    ensures |a.frames| > 1 && Returned(p, v) == Place(under, Returned(a, v)) && Based(Returned(a, v))
  {
    hide Ok, Place, Trim;
    Sizes(under, a);
    ReturnedPlaced(under, a, v);
  }

  lemma CaughtWithin(under: Slice, p: Slice, a: Slice, v: Value)
    requires Ok(under) && Rooted(a) && Ok(p) && p == Place(under, a)
    requires p.handlers != [] && p.handlers[|p.handlers| - 1].frameCount > |under.frames|
    ensures a.handlers != [] && Caught(p, v) == Place(under, Caught(a, v)) && Based(Caught(a, v))
  {
    hide Ok, Place;
    if a.handlers == [] { NoHandlers(under, a); assert false; }
    CaughtPlaced(under, a, v);
    LastOk(a);
  }

  /** Cutting the machine at a frame above the activation's root. */
  lemma CutWithin(under: Slice, p: Slice, a: Slice)
    requires Ok(under) && Rooted(a) && Ok(p) && p == Place(under, a) && Root(p.frames) > |under.frames|
    ensures var r, q := Root(p.frames), Root(a.frames);
            && r < |p.frames| && q < |a.frames| && p.frames[r].closure == a.frames[q].closure
            && p.frames[r].slots <= |p.stack| && a.frames[q].slots <= |a.stack|
            && Under(p, r) == Place(under, Under(a, q)) && Over(p, r) == Over(a, q) && Based(Under(a, q))
  {
    hide Ok, Place, Root, Trim, Over;
    RootPlaced(under, a);
    var q := Root(a.frames);
    RootInStack(a, q);
    RootInStack(p, Root(p.frames));
    UnderPlaced(under, a, q);
    OverPlaced(under, a, q);
  }

  lemma SuspendWithin(under: Slice, p: State, a: State, needsResult: bool)
    requires Placed(under, p, a) && Ok(p.now) && Root(p.now.frames) > |under.frames|
    ensures var q, b := Suspended(p, Root(p.now.frames), needsResult), Suspended(a, Root(a.now.frames), needsResult);
            q.now == Place(under, b.now) && q.saved == b.saved && |q.conts| == |b.conts| && Based(b.now)
  {
    hide Ok, Place, Root, Under, Over;
    CutWithin(under, p.now, a.now);
  }

  lemma DeliverWithin(under: Slice, q: State, b: State, v: Value)
    requires q.now == Place(under, b.now) && Based(b.now)
    ensures Deliver(q, v).Next? && Deliver(b, v).Next?
    ensures Deliver(q, v).s == q.(now := Place(under, Pushed(b.now, v))) && Deliver(b, v).s == b.(now := Pushed(b.now, v))
  {
    hide Place;
    Sizes(under, b.now);
    PushPlaced(under, b.now, v);
  }

  lemma PopWithin(under: Slice, p: State, a: State)
    requires Live(p) && Live(a) && Placed(under, p, a) && |p.now.stack| > Floor(p.now)
    ensures |a.now.stack| > Floor(a.now) && Top(p.now) == Top(a.now) && Ok(Popped(p.now)) && Ok(Popped(a.now))
    ensures Placed(under, p.(now := Popped(p.now)), a.(now := Popped(a.now)))
  {
    hide Ok, Place, Floor;
    FloorPlaced(under, a.now);
    PlaceView(under, a.now);
    PoppedOk(p.now);
    PoppedOk(a.now);
    PopPlaced(under, a.now);
  }

  lemma YieldWithin(under: Slice, p: State, a: State)
    requires Live(p) && Live(a) && Placed(under, p, a) && Root(p.now.frames) > |under.frames| && |p.now.stack| > Floor(p.now)
    ensures Step(a, Yield).Next?
    ensures var q, b := Step(p, Yield), Step(a, Yield).s;
            q.Next? && q.s.now == Place(under, b.now) && q.s.saved == b.saved && |q.s.conts| == |b.conts| && Based(b.now)
  {
    hide Ok, Place, Floor, Root, Suspended, ContinuationOk, Rooted;
    PopWithin(under, p, a);
    var p', a' := p.(now := Popped(p.now)), a.(now := Popped(a.now));
    SuspendWithin(under, p', a', false);
    DeliverWithin(under, Suspended(p', Root(p'.now.frames), false), Suspended(a', Root(a'.now.frames), false), Top(p.now));
  }

  lemma InlineReturnWithin(under: Slice, p: State, a: State)
    requires Live(p) && Live(a) && Placed(under, p, a) && Root(p.now.frames) > |under.frames| && |p.now.stack| > Floor(p.now)
    ensures Step(a, InlineReturn).Next?
    ensures var q, b := Step(p, InlineReturn), Step(a, InlineReturn).s;
            q.Next? && q.s.now == Place(under, b.now) && q.s.saved == b.saved && |q.s.conts| == |b.conts| && Based(b.now)
  {
    hide Ok, Place, Floor, Root, Under, Over, ContinuationOk, Rooted;
    PopWithin(under, p, a);
    CutWithin(under, Popped(p.now), Popped(a.now));
    var r, q := Root(p.now.frames), Root(a.now.frames);
    var saved := p.saved - {p.now.frames[r].closure};
    DeliverWithin(under, State(Under(Popped(p.now), r), saved, p.conts), State(Under(Popped(a.now), q), saved, a.conts), Top(p.now));
  }

  lemma CaptureWithin(under: Slice, p: State, a: State, self: Value, receiver: Option<Receiver>)
    requires Live(p) && Live(a) && Placed(under, p, a) && Root(p.now.frames) > |under.frames|
    requires Step(p, CallCC(self, receiver)).Next?
    ensures Step(a, CallCC(self, receiver)).Next?
    ensures var q, b := Step(p, CallCC(self, receiver)).s, Step(a, CallCC(self, receiver)).s;
            q.now == Place(under, b.now) && q.saved == b.saved && |q.conts| == |b.conts| && Based(b.now)
  {
    hide Ok, Place, Floor, Root, Suspended, ContinuationOk, HandOver;
    CaptureValid(p);
    CaptureValid(a);
    var r, q := Root(p.now.frames), Root(a.now.frames);
    var k := Continuation(p.now, Some(p.now.frames[r].closure), Some(r));
    var l := Continuation(a.now, Some(a.now.frames[q].closure), Some(q));
    SuspendWithin(under, p.(conts := p.conts + [k]), a.(conts := a.conts + [l]), true);
    HandOverWithin(under, CaptureStep(p), CaptureStep(a), self, receiver);
  }

  lemma PushWithin(under: Slice, p: State, a: State, v: Value)
    requires Valid(p) && Valid(a) && Placed(under, p, a)
    ensures Ok(Pushed(p.now, v)) && Ok(Pushed(a.now, v))
    ensures Valid(p.(now := Pushed(p.now, v))) && Valid(a.(now := Pushed(a.now, v)))
    ensures Placed(under, p.(now := Pushed(p.now, v)), a.(now := Pushed(a.now, v)))
  {
    hide Ok, Place, ContinuationOk;
    PushPlaced(under, a.now, v);
    PushedOk(p.now, v);
    PushedOk(a.now, v);
    NowValid(p, Pushed(p.now, v));
    NowValid(a, Pushed(a.now, v));
  }

  lemma HandOverWithin(under: Slice, p: State, a: State, self: Value, receiver: Option<Receiver>)
    requires Valid(p) && Valid(a) && p.now == Place(under, a.now) && Ok(under) && Based(a.now)
    requires p.saved == a.saved && |p.conts| == |a.conts| && HandOver(p, self, receiver).Next?
    ensures HandOver(a, self, receiver).Next?
    ensures var q, b := HandOver(p, self, receiver).s, HandOver(a, self, receiver).s;
            q.now == Place(under, b.now) && q.saved == b.saved && |q.conts| == |b.conts| && Based(b.now)
  {
    hide Valid, Ok, Place, Floor, CallStep;
    LiveBased(a);
    Sizes(under, a.now);
    match receiver
    case None => PushWithin(under, p, a, self);
    case Some(r) =>
      PushWithin(under, p, a, r.value);
      var p1, a1 := p.(now := Pushed(p.now, r.value)), a.(now := Pushed(a.now, r.value));
      PushWithin(under, p1, a1, self);
      var p2, a2 := p1.(now := Pushed(p1.now, self)), a1.(now := Pushed(a1.now, self));
      StillOk(p);
      FloorBounds(p.now);
      FrameAt(under, a.now, |a.now.frames| - 1);
      SameFloor(p.now, p2.now.stack);
      CallWithin(under, p2, a2, r.closure, r.inline, r.callName, Call(1, false, r.passed), a2.now.frames[|a2.now.frames| - 1].ip);
  }

  lemma StillOk(s: State)
    requires Valid(s)
    ensures Ok(s.now)
  {
  }

  lemma SameFloor(s: Slice, stack: seq<Value>)
    ensures Floor(s.(stack := stack)) == Floor(s)
  {
  }

  /** One instruction of a placed activation is that instruction of the activation, placed. */
  lemma StepWithin(under: Slice, p: State, a: State, i: Instr)
    requires Live(p) && Live(a) && Placed(under, p, a) && Within(p.now, i, |under.frames|) && Step(p, i).Next?
    ensures Step(a, i).Next? && Live(Step(a, i).s) && Placed(under, Step(p, i).s, Step(a, i).s)
  {
    hide Ok, Place, Floor, Root, Returned, Caught, Under, Over;
    FloorPlaced(under, a.now);
    PlaceView(under, a.now);
    match i {
    case Do(local) => LocalCommutes(under, a.now, local);
    case CallClosure(closure, inline, callName, call, ip) =>
      CallerPlaced(under, a.now, call, ip);
      CallWithin(under, p, a, closure, inline, callName, call, ip);
    case CallCC(self, receiver) => CaptureWithin(under, p, a, self, receiver);
    case Yield => YieldWithin(under, p, a);
    case Return => ReturnWithin(under, p.now, a.now, Top(a.now));
    case InlineReturn => InlineReturnWithin(under, p, a);
    case Raise => CaughtWithin(under, p.now, a.now, Top(a.now));
    case Abort(_) => ReturnWithin(under, p.now, a.now, Null);
    }
    StepLive(a, i);
    LiveBased(Step(a, i).s);
  }

  // ----- leaving the activation -----

  /** Cutting the machine at the root of an activation leaves what it was placed on. */
  lemma UnderRoot(under: Slice, s: Slice)
    requires Ok(under) && Rooted(s)
    ensures var p, n := Place(under, s), |under.frames|;
            && n < |p.frames| && p.frames[n].slots == |under.stack| <= |p.stack| && Under(p, n) == under
  {
    var p, n := Place(under, s), |under.frames|;
    FrameAt(under, s, 0);
    forall i | 0 <= i < |under.handlers| ensures under.handlers[i].frameCount <= n {
      assert HandlerOk(under.handlers[i], under.frames, |under.stack|);
    }
    forall i | |under.handlers| <= i < |p.handlers| ensures p.handlers[i].frameCount > n {
      assert HandlerOk(s.handlers[i - |under.handlers|], s.frames, |s.stack|);
    }
    hide Ok, Trim;
    TrimTo(p.handlers, n, |under.handlers|);
    assert p.stack[..|under.stack|] == under.stack && p.frames[..n] == under.frames;
  }

  lemma NotEmpty(s: Slice)
    requires Ok(s) && s.frames != []
    ensures s.stack != []
  {
    assert s.frames[0].slots + FRAME_SLOTS <= |s.stack|;
  }

  // ----- runs -----

  lemma WithinAlone(under: Slice, a: Slice, i: Instr)
    requires Ok(under) && Rooted(a) && Place(under, a).frames != []
    ensures Within(Place(under, a), i, |under.frames|) <==> Within(a, i, 0)
  {
    hide Ok, Place, Root;
    RootPlaced(under, a);
    PlaceView(under, a);
    if a.handlers == [] { NoHandlers(under, a); } else { LastOk(a); }
  }

  /** A run that stays inside the activation is the run of the activation alone, placed on
      the same machine. */
  lemma {:induction false} RunInside(under: Slice, p: State, a: State, run: seq<Instr>)
    requires Live(p) && Live(a) && Placed(under, p, a) && RunWithin(p, run, |under.frames|) && Run(p, run).Next?
    ensures RunWithin(a, run, 0) && Run(a, run).Next?
    ensures Live(Run(p, run).s) && Live(Run(a, run).s) && Placed(under, Run(p, run).s, Run(a, run).s)
    decreases |run|
  {
    hide Live, Valid, Ok, Step, Within, Place;
    if run != [] {
      PlacedFrames(under, p, a);
      WithinAlone(under, a.now, run[0]);
      StepWithin(under, p, a, run[0]);
      StepLive(p, run[0]);
      RunInside(under, Step(p, run[0]).s, Step(a, run[0]).s, run[1..]);
    }
  }

  lemma PlacedFrames(under: Slice, p: State, a: State)
    requires Live(p) && Live(a) && Placed(under, p, a)
    ensures p.now.frames != [] && a.now.frames != []
  {
  }

  /** Elsewhere the same run stays inside too, and ends in the same activation, unless the
      other machine is too full for it. */
  lemma {:induction false} RunElsewhere(under: Slice, p: State, a: State, run: seq<Instr>)
    requires Live(p) && Live(a) && Placed(under, p, a) && RunWithin(a, run, 0) && Run(p, run).Next?
    ensures RunWithin(p, run, |under.frames|)
    decreases |run|
  {
    hide Live, Valid, Ok, Step, Within, Place;
    if run != [] {
      PlacedFrames(under, p, a);
      WithinAlone(under, a.now, run[0]);
      StepWithin(under, p, a, run[0]);
      StepLive(p, run[0]);
      RunElsewhere(under, Step(p, run[0]).s, Step(a, run[0]).s, run[1..]);
    }
  }

  /** A resumed activation runs as it would have run where it was suspended, given the same
      arguments: both runs make the same steps, through calls, other coroutines, captures
      and exceptions, and end in the same activation, each on its own stack. */
  lemma ResumedRunsAlike(here: Slice, there: Slice, h: State, t: State, a: State, run: seq<Instr>)
    requires Live(h) && Live(t) && Live(a) && Placed(here, h, a) && Placed(there, t, a)
    requires RunWithin(h, run, |here.frames|) && Run(h, run).Next? && Run(t, run).Next?
    ensures RunWithin(t, run, |there.frames|) && Run(a, run).Next?
    ensures Placed(here, Run(h, run).s, Run(a, run).s) && Placed(there, Run(t, run).s, Run(a, run).s)
  {
    hide Live, Placed, Run, RunWithin;
    RunInside(here, h, a, run);
    RunElsewhere(there, t, a, run);
    RunInside(there, t, a, run);
  }
}
