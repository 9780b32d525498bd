/** The control state of the virtual machine: value stack, frames and exception handlers,
    the activations that suspended coroutines keep, and continuations. */
module Control {
  import opened Values

  const FRAME_SLOTS := 12

  /** `slots` is the offset of the frame's fixed slots in the stack that belongs to it;
      `returnTo` is the context a continuation invocation goes back to. */
  datatype Frame = Frame(closure: nat, inline: bool, ip: nat, slots: nat, returnTo: Option<nat>)

  datatype Handler = Handler(catchIp: nat, frameCount: nat, stackCount: nat)

  /** A stretch of the machine. Offsets and counts are relative to its start. */
  datatype Slice = Slice(stack: seq<Value>, frames: seq<Frame>, handlers: seq<Handler>)

  datatype Coroutine = Coroutine(slice: Slice, needsResult: bool)

  /** A captured context; with an owner it resumes the frame at `resume`. */
  datatype Continuation = Continuation(context: Slice, owner: Option<nat>, resume: Option<nat>)

  datatype State = State(now: Slice, saved: map<nat, Coroutine>, conts: seq<Continuation>)

  // ----- invariants -----

  /** Each frame's fixed slots lie below the next frame and inside the stack. */
  predicate FramesOk(fs: seq<Frame>, height: nat) {
    && (forall i | 0 <= i < |fs| :: fs[i].slots + FRAME_SLOTS <= height)
    && (forall i, j | 0 <= i < j < |fs| :: fs[i].slots + FRAME_SLOTS <= fs[j].slots)
  }

  /** A handler belongs to a live frame, and its stack height lies between that frame's
      fixed slots and the next frame. */
  predicate HandlerOk(h: Handler, fs: seq<Frame>, height: nat) {
    && 1 <= h.frameCount <= |fs| && h.stackCount <= height
    && fs[h.frameCount - 1].slots + FRAME_SLOTS <= h.stackCount
    && (h.frameCount < |fs| ==> h.stackCount <= fs[h.frameCount].slots)
  }

  /** Handlers never decrease in frame count or stack height. */
  predicate Monotone(hs: seq<Handler>) {
    forall a, b | 0 <= a < b < |hs| :: hs[a].frameCount <= hs[b].frameCount && hs[a].stackCount <= hs[b].stackCount
  }

  predicate Ok(s: Slice) {
    && FramesOk(s.frames, |s.stack|) && Monotone(s.handlers)
    && (forall a | 0 <= a < |s.handlers| :: HandlerOk(s.handlers[a], s.frames, |s.stack|))
  }

  /** What a coroutine keeps starts with its root frame. */
  predicate Rooted(s: Slice) {
    Ok(s) && s.frames != [] && s.frames[0].slots == 0
  }

  predicate Returns(fs: seq<Frame>, conts: seq<Continuation>) {
    forall i | 0 <= i < |fs| && fs[i].returnTo.Some? :: fs[i].returnTo.value < |conts|
  }

  predicate ContinuationOk(c: Continuation, conts: seq<Continuation>) {
    && Ok(c.context) && c.context.frames != [] && Returns(c.context.frames, conts)
    && (c.resume.Some? ==> c.resume.value < |c.context.frames|)
  }

  predicate Valid(s: State) {
    && Ok(s.now) && Returns(s.now.frames, s.conts)
    && (forall id | id in s.saved :: Rooted(s.saved[id].slice) && Returns(s.saved[id].slice.frames, s.conts))
    && (forall k | 0 <= k < |s.conts| :: ContinuationOk(s.conts[k], s.conts))
  }

  // ----- cutting and placing -----

  /** trim_try_handlers. */
  function Trim(hs: seq<Handler>, count: nat): (r: seq<Handler>)
    ensures r <= hs
  {
    if hs != [] && hs[|hs| - 1].frameCount > count then Trim(hs[..|hs| - 1], count) else hs
  }

  /** The first handler of a frame above `count`. */
  function First(hs: seq<Handler>, count: nat): (n: nat)
    ensures n <= |hs|
  {
    if hs == [] || hs[0].frameCount > count then 0 else 1 + First(hs[1..], count)
  }

  function Raise(fs: seq<Frame>, d: nat): (r: seq<Frame>)
    ensures |r| == |fs|
    ensures forall i | 0 <= i < |fs| :: r[i] == fs[i].(slots := fs[i].slots + d)
  {
    seq(|fs|, i requires 0 <= i < |fs| => fs[i].(slots := fs[i].slots + d))
  }

  function Lower(fs: seq<Frame>, d: nat): (r: seq<Frame>)
    requires forall i | 0 <= i < |fs| :: fs[i].slots >= d
    ensures |r| == |fs|
    ensures forall i | 0 <= i < |fs| :: r[i] == fs[i].(slots := fs[i].slots - d)
  {
    seq(|fs|, i requires 0 <= i < |fs| => fs[i].(slots := fs[i].slots - d))
  }

  function RaiseHandlers(hs: seq<Handler>, frames: nat, d: nat): (r: seq<Handler>)
    ensures |r| == |hs|
    ensures forall i | 0 <= i < |hs| ::
              r[i] == Handler(hs[i].catchIp, hs[i].frameCount + frames, hs[i].stackCount + d)
  {
    seq(|hs|, i requires 0 <= i < |hs| => Handler(hs[i].catchIp, hs[i].frameCount + frames, hs[i].stackCount + d))
  }

  function LowerHandlers(hs: seq<Handler>, frames: nat, d: nat): (r: seq<Handler>)
    requires forall i | 0 <= i < |hs| :: hs[i].frameCount >= frames && hs[i].stackCount >= d
    ensures |r| == |hs|
    ensures forall i | 0 <= i < |hs| ::
              r[i] == Handler(hs[i].catchIp, hs[i].frameCount - frames, hs[i].stackCount - d)
  {
    seq(|hs|, i requires 0 <= i < |hs| => Handler(hs[i].catchIp, hs[i].frameCount - frames, hs[i].stackCount - d))
  }

  /** `s` put on top of `under`. */
  function Place(under: Slice, s: Slice): Slice {
    Slice(under.stack + s.stack,
          under.frames + Raise(s.frames, |under.stack|),
          under.handlers + RaiseHandlers(s.handlers, |under.frames|, |under.stack|))
  }

  /** What lies below frame `root`. */
  function Under(s: Slice, root: nat): Slice
    requires root < |s.frames| && s.frames[root].slots <= |s.stack|
  {
    Slice(s.stack[..s.frames[root].slots], s.frames[..root], Trim(s.handlers, root))
  }

  /** Frame `root` and everything above it, as a suspended coroutine keeps it. */
  function Over(s: Slice, root: nat): Slice
    requires Ok(s) && root < |s.frames|
  {
    var base := s.frames[root].slots;
    AboveBase(s, root);
    var hs := s.handlers[First(s.handlers, root)..];
    Slice(s.stack[base..], Lower(s.frames[root..], base), LowerHandlers(hs, root, base))
  }

  /** The frames and handlers above a root lie above its base. */
  lemma AboveBase(s: Slice, root: nat)
    requires Ok(s) && root < |s.frames|
    ensures forall i | 0 <= i < |s.frames[root..]| :: s.frames[root..][i].slots >= s.frames[root].slots
    ensures var hs := s.handlers[First(s.handlers, root)..];
            forall i | 0 <= i < |hs| :: hs[i].frameCount >= root && hs[i].stackCount >= s.frames[root].slots
    ensures forall i | First(s.handlers, root) <= i < |s.handlers| ::
              s.handlers[i].frameCount > root && s.handlers[i].stackCount >= s.frames[root].slots + FRAME_SLOTS
  {
    FirstSplits(s.handlers, root);
    forall i | First(s.handlers, root) <= i < |s.handlers|
      ensures s.handlers[i].frameCount > root && s.handlers[i].stackCount >= s.frames[root].slots + FRAME_SLOTS
    {
      assert HandlerOk(s.handlers[i], s.frames, |s.stack|);
    }
  }

  lemma {:induction false} FirstSplits(hs: seq<Handler>, count: nat)
    requires Monotone(hs)
    ensures forall i | 0 <= i < First(hs, count) :: hs[i].frameCount <= count
    ensures forall i | First(hs, count) <= i < |hs| :: hs[i].frameCount > count
  {
    if hs != [] && hs[0].frameCount <= count {
      FirstSplits(hs[1..], count);
      assert forall i | 1 <= i < |hs| :: hs[i] == hs[1..][i - 1];
    }
  }

  /** Trimming keeps exactly the handlers before the first one above. */
  lemma {:induction false} TrimIsPrefix(hs: seq<Handler>, count: nat)
    requires Monotone(hs)
    ensures Trim(hs, count) == hs[..First(hs, count)]
  {
    FirstSplits(hs, count);
    TrimTo(hs, count, First(hs, count));
  }

  lemma {:induction false} TrimTo(hs: seq<Handler>, count: nat, n: nat)
    requires n <= |hs| && (forall i | n <= i < |hs| :: hs[i].frameCount > count)
    requires forall i | 0 <= i < n :: hs[i].frameCount <= count
    ensures Trim(hs, count) == hs[..n]
  {
    if |hs| > n {
      TrimTo(hs[..|hs| - 1], count, n);
      assert hs[..|hs| - 1][..n] == hs[..n];
    } else {
      assert hs[..n] == hs;
    }
  }

  /** Cutting a machine at a frame and putting the two parts together again changes
      nothing: suspending and resuming in the same place is the identity. */
  lemma CutAndPlace(s: Slice, root: nat)
    requires Ok(s) && root < |s.frames|
    ensures Place(Under(s, root), Over(s, root)) == s
  {
    hide Trim, First, FramesOk, HandlerOk, Monotone;
    TrimIsPrefix(s.handlers, root);
    AboveBase(s, root);
    RootInStack(s, root);
    var base := s.frames[root].slots;
    FramesBack(s.frames, root, base);
    HandlersBack(s.handlers, First(s.handlers, root), root, base);
    assert s.stack[..base] + s.stack[base..] == s.stack;
  }

  lemma RootInStack(s: Slice, root: nat)
    requires Ok(s) && root < |s.frames|
    ensures s.frames[root].slots <= |s.stack|
  {
  }

  lemma FramesBack(fs: seq<Frame>, n: nat, d: nat)
    requires n <= |fs| && forall i | 0 <= i < |fs[n..]| :: fs[n..][i].slots >= d
    ensures fs[..n] + Raise(Lower(fs[n..], d), d) == fs
  {
  }

  lemma HandlersBack(hs: seq<Handler>, n: nat, frames: nat, d: nat)
    requires n <= |hs| && forall i | 0 <= i < |hs[n..]| :: hs[n..][i].frameCount >= frames && hs[n..][i].stackCount >= d
    ensures hs[..n] + RaiseHandlers(LowerHandlers(hs[n..], frames, d), frames, d) == hs
  {
  }

  // ----- both parts keep the invariant -----

  lemma UnderOk(s: Slice, root: nat)
    requires Ok(s) && root < |s.frames|
    ensures Ok(Under(s, root))
  {
    TrimIsPrefix(s.handlers, root);
    FirstSplits(s.handlers, root);
    var u := Under(s, root);
    hide HandlerOk, Trim, First;
    assert forall a | 0 <= a < |u.handlers| :: u.handlers[a] == s.handlers[a];
    forall a | 0 <= a < |u.handlers| ensures HandlerOk(u.handlers[a], u.frames, |u.stack|) {
      KeptHandler(s.handlers[a], s.frames, |s.stack|, root);
    }
  }

  /** A handler of a lower frame stays good when frame `root` and all above it go. */
  lemma KeptHandler(h: Handler, fs: seq<Frame>, height: nat, root: nat)
    requires HandlerOk(h, fs, height) && FramesOk(fs, height) && h.frameCount <= root < |fs|
    ensures HandlerOk(h, fs[..root], fs[root].slots)
  {
  }

  lemma OverOk(s: Slice, root: nat)
    requires Ok(s) && root < |s.frames|
    ensures Rooted(Over(s, root))
  {
    OverFrames(s, root);
    AboveBase(s, root);
    LowerMonotone(s.handlers, First(s.handlers, root), root, s.frames[root].slots);
    hide HandlerOk, Monotone, FramesOk, First;
    var o := Over(s, root);
    forall a | 0 <= a < |o.handlers| ensures HandlerOk(o.handlers[a], o.frames, |o.stack|) {
      OverHandler(s, root, a);
    }
  }

  lemma OverHandler(s: Slice, root: nat, a: nat)
    requires Ok(s) && root < |s.frames| && a < |Over(s, root).handlers|
    ensures HandlerOk(Over(s, root).handlers[a], Over(s, root).frames, |Over(s, root).stack|)
  {
    hide Monotone, First;
    AboveBase(s, root);
    var n, base := First(s.handlers, root), s.frames[root].slots;
    var h := s.handlers[n + a];
    assert HandlerOk(h, s.frames, |s.stack|) && base <= |s.stack|;
    hide Ok, HandlerOk, FramesOk;
    var o := Over(s, root);
    assert o.handlers[a] == Handler(h.catchIp, h.frameCount - root, h.stackCount - base);
    LoweredHandler(h, s.frames, |s.stack|, root, o.frames);
  }

  lemma LowerMonotone(hs: seq<Handler>, n: nat, frames: nat, d: nat)
    requires Monotone(hs) && n <= |hs|
    requires forall i | 0 <= i < |hs[n..]| :: hs[n..][i].frameCount >= frames && hs[n..][i].stackCount >= d
    ensures Monotone(LowerHandlers(hs[n..], frames, d))
  {
  }

  lemma OverFrames(s: Slice, root: nat)
    requires Ok(s) && root < |s.frames|
    ensures FramesOk(Over(s, root).frames, |Over(s, root).stack|) && Over(s, root).frames[0].slots == 0
  {
    AboveBase(s, root);
    assert s.frames[root..][0] == s.frames[root];
  }

  lemma LoweredHandler(h: Handler, fs: seq<Frame>, height: nat, root: nat, lowered: seq<Frame>)
    requires HandlerOk(h, fs, height) && root < |fs| && h.frameCount > root
    requires fs[root].slots + FRAME_SLOTS <= h.stackCount && fs[root].slots <= height
    requires |lowered| == |fs| - root
    requires forall i | 0 <= i < |lowered| :: lowered[i].slots == fs[root + i].slots - fs[root].slots
    ensures HandlerOk(Handler(h.catchIp, h.frameCount - root, h.stackCount - fs[root].slots), lowered, height - fs[root].slots)
  {
  }

  lemma PlaceOk(under: Slice, s: Slice)
    requires Ok(under) && Rooted(s)
    ensures Ok(Place(under, s))
  {
    var p := Place(under, s);
    PlaceFrames(under, s);
    var n := |under.handlers|;
    hide HandlerOk, FramesOk, Monotone;
    forall a | 0 <= a < |p.handlers| ensures HandlerOk(p.handlers[a], p.frames, |p.stack|) {
      if a < n {
        CoveredHandler(under.handlers[a], under, s);
      } else {
        RaisedHandler(s.handlers[a - n], under, s);
      }
    }
    forall a | 0 <= a < n
      ensures under.handlers[a].frameCount <= |under.frames| && under.handlers[a].stackCount <= |under.stack|
    {
      CoveredHandler(under.handlers[a], under, s);
    }
    MonotoneJoin(under.handlers, s.handlers, |under.frames|, |under.stack|);
  }

  lemma MonotoneJoin(a: seq<Handler>, b: seq<Handler>, frames: nat, d: nat)
    requires Monotone(a) && Monotone(b)
    requires forall i | 0 <= i < |a| :: a[i].frameCount <= frames && a[i].stackCount <= d
    ensures Monotone(a + RaiseHandlers(b, frames, d))
  {
    var r := RaiseHandlers(b, frames, d);
    assert Monotone(r);
  }

  lemma CoveredHandler(h: Handler, under: Slice, s: Slice)
    requires HandlerOk(h, under.frames, |under.stack|) && Rooted(s)
    ensures HandlerOk(h, Place(under, s).frames, |Place(under, s).stack|)
    ensures h.frameCount <= |under.frames| && h.stackCount <= |under.stack|
  {
    hide Monotone;
  }

  lemma RaisedHandler(h: Handler, under: Slice, s: Slice)
    requires HandlerOk(h, s.frames, |s.stack|)
    ensures HandlerOk(Handler(h.catchIp, h.frameCount + |under.frames|, h.stackCount + |under.stack|),
                      Place(under, s).frames, |Place(under, s).stack|)
  {
  }

  lemma PlaceFrames(under: Slice, s: Slice)
    requires FramesOk(under.frames, |under.stack|) && FramesOk(s.frames, |s.stack|)
    ensures FramesOk(Place(under, s).frames, |Place(under, s).stack|)
  {
  }

  // ----- finding the frame to leave -----

  /** The innermost frame that is not inline, or the outermost. */
  function Root(fs: seq<Frame>): (r: nat)
    requires fs != []
    ensures r < |fs|
    ensures r > 0 ==> !fs[r].inline
    ensures forall i | r < i < |fs| :: fs[i].inline
  {
    if |fs| == 1 || !fs[|fs| - 1].inline then |fs| - 1 else Root(fs[..|fs| - 1])
  }
}
