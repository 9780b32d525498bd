/** foreach over an array while the body removes elements or changes the array. */
module Foreach {
  import opened Values

  /** The collection, and what the frame remembers of its iteration. `idx` is the counter
      on the stack, `at` the index remove() refers to. */
  datatype Loop<T> = Loop(elements: seq<T>, version: nat, idx: nat, started: bool, seenVersion: nat,
                          invalidated: bool, active: bool, at: nat, last: Option<T>)

  /** What a body does to the collection. */
  datatype Action<T> = Remove | Change(elements: seq<T>)

  function Start<T>(s: seq<T>, version: nat): Loop<T> {
    Loop(s, version, 0, false, 0, false, false, 0, None)
  }

  /** No element is current until one is found; a fresh iteration takes note of the version. */
  function Noted<T>(l: Loop<T>): Loop<T> {
    if l.idx == 0 || !l.started
    then l.(active := false, started := true, seenVersion := l.version, invalidated := false)
    else l.(active := false)
  }

  /** OP_FOREACH_NEXT on an array: the element for the next run of the body (None when an
      invalid iterator repeats nothing), or the end. */
  function Next<T>(l: Loop<T>): (Option<Option<T>>, Loop<T>) {
    var m := Noted(l);
    if m.invalidated then (None, m.(started := false, invalidated := false))
    else if m.idx > 0 && m.seenVersion != m.version then (Some(m.last), m.(invalidated := true, idx := m.idx + 1))
    else if m.idx < |m.elements| then
      (Some(Some(m.elements[m.idx])),
       m.(active := true, at := m.idx, last := Some(m.elements[m.idx]), idx := m.idx + 1))
    else (None, m.(started := false, invalidated := false))
  }

  /** native_remove without arguments. */
  function RemoveCurrent<T>(l: Loop<T>): Loop<T> {
    if !l.active then l
    else
      var hit := l.at < |l.elements|;
      var version := if hit then l.version + 1 else l.version;
      l.(elements := if hit then l.elements[..l.at] + l.elements[l.at + 1..] else l.elements,
         version := version, seenVersion := version, idx := if l.idx > 0 then l.idx - 1 else 0, active := false)
  }

  function Do<T>(l: Loop<T>, a: Action<T>): Loop<T> {
    match a
    case Remove => RemoveCurrent(l)
    case Change(es) => l.(elements := es, version := l.version + 1)
  }

  /** One run of the body. */
  function Body<T>(l: Loop<T>, actions: seq<Action<T>>): Loop<T>
    decreases |actions|
  {
    if actions == [] then l else Body(Do(l, actions[0]), actions[1..])
  }

  /** What the whole loop visits, the collection it leaves and whether it came to its end
      when the given runs of the body were used up. */
  datatype Trip<T> = Trip(visited: seq<Option<T>>, left: seq<T>, ended: bool)

  function Run<T>(l: Loop<T>, bodies: seq<seq<Action<T>>>): Trip<T>
    decreases |bodies|
  {
    var (item, m) := Next(l);
    if item.None? then Trip([], m.elements, true)
    else if bodies == [] then Trip([], m.elements, false)
    else
      var rest := Run(Body(m, bodies[0]), bodies[1..]);
      Trip([item.value] + rest.visited, rest.left, rest.ended)
  }

  /** The frame that steps through an array. */
  class Iteration<T(==)> {
    var elements: seq<T>
    var version: nat
    var idx: nat
    var started: bool
    var seenVersion: nat
    var invalidated: bool
    var active: bool
    var at: nat
    var last: Option<T>

    constructor (s: seq<T>, version: nat)
      ensures Now() == Start(s, version)
    {
      elements, this.version, idx, started, seenVersion := s, version, 0, false, 0;
      invalidated, active, at, last := false, false, 0, None;
    }

    function Now(): Loop<T>
      reads this
    {
      Loop(elements, version, idx, started, seenVersion, invalidated, active, at, last)
    }

    /** OP_FOREACH_NEXT on an array. */
    method Step() returns (item: Option<Option<T>>)
      modifies this
      ensures Next(old(Now())) == (item, Now())
    {
      active := false;
      if idx == 0 || !started {
        started, seenVersion, invalidated := true, version, false;
      }
      if invalidated {
        item := None;
      } else if idx > 0 && seenVersion != version {
        item := Some(last);
        invalidated := true;
      } else if idx < |elements| {
        active, at, last := true, idx, Some(elements[idx]);
        item := Some(last);
      } else {
        item := None;
      }
      if item.None? {
        started, invalidated := false, false;
      } else {
        idx := idx + 1;
      }
    }

    /** remove() inside the loop. */
    method RemoveElement()
      modifies this
      ensures Now() == RemoveCurrent(old(Now()))
    {
      if !active {
        return;
      }
      if at < |elements| {
        elements := elements[..at] + elements[at + 1..];
        version := version + 1;
      }
      seenVersion := version;
      idx := if idx > 0 then idx - 1 else 0;
      active := false;
    }
  }

  // ----- removing any subset -----

  /** The bodies that remove exactly the elements marked in `gone`. */
  function Removals<T>(gone: seq<bool>): (r: seq<seq<Action<T>>>)
    ensures |r| == |gone|
  {
    seq(|gone|, i requires 0 <= i < |gone| => if gone[i] then [Remove] else [])
  }

  function Kept<T>(s: seq<T>, gone: seq<bool>): seq<T>
    requires |s| == |gone|
  {
    if s == [] then [] else (if gone[0] then [] else [s[0]]) + Kept(s[1..], gone[1..])
  }

  function Somes<T>(s: seq<T>): (r: seq<Option<T>>)
    ensures |r| == |s|
  {
    if s == [] then [] else [Some(s[0])] + Somes(s[1..])
  }

  /** The head of the loop when `kept` elements have been kept and `s` is still to come. */
  predicate AtHead<T>(l: Loop<T>, kept: nat) {
    && l.idx == kept && kept <= |l.elements|
    && (kept > 0 ==> l.started && l.seenVersion == l.version && !l.invalidated)
  }

  /** One turn at the head: the next element is visited, and stays or goes. */
  lemma HeadTurn<T>(l: Loop<T>, kept: seq<T>, s: seq<T>)
    requires s != [] && l.elements == kept + s && AtHead(l, |kept|)
    ensures var (item, m) := Next(l);
            && item == Some(Some(s[0]))
            && m.elements == kept + [s[0]] + s[1..] && AtHead(m, |kept| + 1)
            && RemoveCurrent(m).elements == kept + s[1..] && AtHead(RemoveCurrent(m), |kept|)
  {
    assert l.elements[|kept|] == s[0];
    assert kept + s == kept + [s[0]] + s[1..];
    assert (kept + s)[..|kept|] + (kept + s)[|kept| + 1..] == kept + s[1..];
  }

  lemma EndTurn<T>(l: Loop<T>, kept: seq<T>)
    requires l.elements == kept && AtHead(l, |kept|)
    ensures Next(l).0.None? && Next(l).1.elements == kept
  {
  }

  lemma RunTurn<T>(l: Loop<T>, bodies: seq<seq<Action<T>>>)
    ensures var (item, m) := Next(l);
            && (item.None? ==> Run(l, bodies) == Trip([], m.elements, true))
            && (item.Some? && bodies != [] ==>
                  var rest := Run(Body(m, bodies[0]), bodies[1..]);
                  Run(l, bodies) == Trip([item.value] + rest.visited, rest.left, rest.ended))
  {
    hide Next, Body;
  }

  lemma KeptTurn<T>(kept: seq<T>, s: seq<T>, gone: seq<bool>)
    requires s != [] && |s| == |gone|
    ensures kept + Kept(s, gone) == (if gone[0] then kept else kept + [s[0]]) + Kept(s[1..], gone[1..])
    ensures kept + s == kept + [s[0]] + s[1..] && s == [s[0]] + s[1..]
  {
    var k := Kept(s[1..], gone[1..]);
    assert Kept(s, gone) == (if gone[0] then [] else [s[0]]) + k;
    hide Kept;
    assert s == [s[0]] + s[1..];
    Associate(kept, [s[0]], k);
    Associate(kept, [s[0]], s[1..]);
    assert [] + k == k;
  }

  lemma Associate<T>(a: seq<T>, b: seq<T>, c: seq<T>)
    ensures a + (b + c) == a + b + c
  {
  }

  lemma RemovalsTurn<T>(gone: seq<bool>)
    requires gone != []
    ensures Removals<T>(gone)[0] == (if gone[0] then [Remove] else []) && Removals<T>(gone)[1..] == Removals<T>(gone[1..])
    ensures forall l: Loop<T> :: Body(l, Removals<T>(gone)[0]) == if gone[0] then RemoveCurrent(l) else l
  {
    if gone[0] {
      forall l: Loop<T> ensures Body(l, Removals<T>(gone)[0]) == RemoveCurrent(l) {
        OneRemoval(l);
      }
    }
  }

  lemma {:induction false} RemovesFrom<T>(l: Loop<T>, kept: seq<T>, s: seq<T>, gone: seq<bool>)
    requires |s| == |gone| && l.elements == kept + s && AtHead(l, |kept|)
    ensures Run(l, Removals(gone)) == Trip(Somes(s), kept + Kept(s, gone), true)
    decreases |s|
  {
    hide Run, Next, Body, RemoveCurrent, Removals, AtHead, Kept;
    RunTurn(l, Removals(gone));
    if s == [] {
      assert kept + s == kept;
      EndTurn(l, kept);
      NothingKept(kept, gone);
    } else {
      HeadTurn(l, kept, s);
      KeptTurn(kept, s, gone);
      RemovalsTurn<T>(gone);
      var m := Next(l).1;
      if gone[0] {
        RemovesFrom(RemoveCurrent(m), kept, s[1..], gone[1..]);
      } else {
        assert Body(m, Removals<T>(gone)[0]) == m;
        RemovesFrom(m, kept + [s[0]], s[1..], gone[1..]);
      }
    }
  }

  lemma NothingKept<T>(kept: seq<T>, gone: seq<bool>)
    requires gone == []
    ensures kept + Kept([], gone) == kept
  {
  }

  lemma OneRemoval<T>(l: Loop<T>)
    ensures Body(l, [Remove]) == RemoveCurrent(l)
  {
    var only: seq<Action<T>> := [Remove];
    assert only[1..] == [];
  }

  /** Whatever subset the body removes with remove(): every element is visited exactly
      once, in order, and exactly the others are left. */
  lemma RemovingVisitsAll<T>(s: seq<T>, version: nat, gone: seq<bool>)
    requires |gone| == |s|
    ensures Run(Start(s, version), Removals(gone)) == Trip(Somes(s), Kept(s, gone), true)
  {
    RemovesFrom(Start(s, version), [], s, gone);
    assert [] + Kept(s, gone) == Kept(s, gone) && [] + s == s;
  }

  // ----- other changes -----

  /** Behind the first element, with a version other than the noted one. */
  predicate Outdated<T>(l: Loop<T>) {
    l.idx > 0 && l.started && !l.invalidated && l.seenVersion != l.version
  }

  /** The versions the frame can be in. */
  predicate Sane<T>(l: Loop<T>) { l.seenVersion <= l.version }

  lemma {:induction false} BodyFacts<T>(l: Loop<T>, actions: seq<Action<T>>)
    requires l.invalidated && l.started && !l.active && l.idx >= 1
    ensures Body(l, actions).invalidated && Body(l, actions).started && Body(l, actions).idx >= 1
    decreases |actions|
  {
    if actions != [] { BodyFacts(Do(l, actions[0]), actions[1..]); }
  }

  /** A change the loop notices gives exactly one further run of the body, with the key
      and value of the run before, and then the loop ends whatever that run does. */
  lemma OneMoreRun<T>(l: Loop<T>, bodies: seq<seq<Action<T>>>)
    requires Outdated(l)
    ensures var r := Run(l, bodies);
            if bodies == [] then r.visited == [] && !r.ended else r.visited == [l.last] && r.ended
  {
    if bodies != [] {
      var (item, m) := Next(l);
      BodyFacts(m, bodies[0]);
      var n := Body(m, bodies[0]);
      assert Next(n).0.None?;
    }
  }

  /** Where the first remove() of a body stands; further ones find nothing to remove. */
  function FirstRemove<T>(actions: seq<Action<T>>): (p: nat)
    ensures p <= |actions|
    ensures forall i | 0 <= i < p :: actions[i].Change?
    ensures p < |actions| ==> actions[p].Remove?
  {
    if actions == [] || actions[0].Remove? then 0 else 1 + FirstRemove(actions[1..])
  }

  predicate HasChange<T>(actions: seq<Action<T>>) {
    exists i :: 0 <= i < |actions| && actions[i].Change?
  }

  lemma HasChangeTurn<T>(actions: seq<Action<T>>)
    requires actions != []
    ensures HasChange(actions) <==> actions[0].Change? || HasChange(actions[1..])
  {
    if HasChange(actions) && actions[0].Remove? {
      var i :| 0 <= i < |actions| && actions[i].Change?;
      assert actions[1..][i - 1].Change?;
    }
    if HasChange(actions[1..]) {
      var i :| 0 <= i < |actions[1..]| && actions[1..][i].Change?;
      assert actions[i + 1].Change?;
    }
  }

  /** Behind the remove(): the counter stays, and any change makes the version newer. */
  lemma {:induction false} Behind<T>(l: Loop<T>, actions: seq<Action<T>>)
    requires Sane(l) && l.started && !l.invalidated && !l.active
    ensures Outdated(Body(l, actions)) <==> l.idx > 0 && (l.seenVersion != l.version || HasChange(actions))
    decreases |actions|
  {
    if actions != [] {
      HasChangeTurn(actions);
      Behind(Do(l, actions[0]), actions[1..]);
    }
  }

  /** Whether the loop notices at its next turn that the body changed the array. Without
      remove() every change is noticed. remove() notes the version it leaves behind, so only
      a change behind the first remove() counts, and not even that in the run for the first
      element, because there remove() steps the counter back to 0 and the loop starts anew. */
  lemma {:induction false} ChangeNoticed<T>(l: Loop<T>, actions: seq<Action<T>>)
    requires Sane(l) && l.active && l.started && !l.invalidated && l.idx >= 1
    ensures var p := FirstRemove(actions);
            Outdated(Body(l, actions)) <==>
            if p == |actions| then l.seenVersion != l.version || actions != []
            else l.idx >= 2 && HasChange(actions[p + 1..])
    decreases |actions|
  {
    if actions != [] {
      if actions[0].Change? {
        var p := FirstRemove(actions);
        assert p < |actions| ==> actions[p + 1..] == actions[1..][p..];
        ChangeNoticed(Do(l, actions[0]), actions[1..]);
      } else {
        Behind(Do(l, actions[0]), actions[1..]);
      }
    }
  }

  /** An array of two whose first element is removed and which is then replaced by `es`:
      the loop goes through all elements of `es`, and still obeys remove() there. */
  lemma RemoveThenChangeUnnoticed<T>(x: T, y: T, version: nat, es: seq<T>, gone: seq<bool>)
    requires |gone| == |es|
    ensures Run(Start([x, y], version), [[Remove, Change(es)]] + Removals(gone)) == Trip([Some(x)] + Somes(es), Kept(es, gone), true)
  {
    hide Run, Kept, Somes, Removals;
    var l := Start([x, y], version);
    var body: seq<Action<T>> := [Remove, Change(es)];
    var bodies := [body] + Removals(gone);
    RunTurn(l, bodies);
    assert bodies[1..] == Removals(gone);
    var m := Next(l).1;
    var second := body[1..];
    assert second[0] == Change(es) && second[1..] == [];
    var n := Do(Do(m, Remove), Change(es));
    assert Body(m, body) == Body(Do(m, Remove), second) == n;
    assert [] + es == es && [] + Kept(es, gone) == Kept(es, gone);
    RemovesFrom(n, [], es, gone);
  }
}
