/** The list of all heap objects, linked through the objects themselves. */
module ObjectList {
  import opened Objects

  /** The links lead from `from` through the objects of `s` to `to`. */
  ghost predicate Chain(from: Obj?, s: seq<Obj>, to: Obj?)
    reads (set o | o in s)`next
  {
    && from == (if s == [] then to else s[0])
    && (forall i | 0 <= i < |s| :: s[i].next == if i + 1 < |s| then s[i + 1] else to)
  }

  ghost predicate Distinct(s: seq<Obj>) {
    forall i, j | 0 <= i < j < |s| :: s[i] != s[j]
  }

  /** The marked objects, in their order. */
  ghost function Survivors(s: seq<Obj>, marked: set<Obj>): (r: seq<Obj>)
    ensures forall o | o in s && o in marked :: o in r
    ensures forall o | o in r :: o in s && o in marked
    ensures |r| <= |s|
  {
    if s == [] then []
    else
      var front, last := Survivors(s[..|s| - 1], marked), s[|s| - 1];
      if last in marked then front + [last] else front
  }

  lemma {:induction false} SurvivorsDistinct(s: seq<Obj>, marked: set<Obj>)
    requires Distinct(s)
    ensures Distinct(Survivors(s, marked))
  {
    if s != [] {
      var front := s[..|s| - 1];
      SurvivorsDistinct(front, marked);
      var last := s[|s| - 1];
      assert last !in front;
      var r := Survivors(front, marked);
      forall i | 0 <= i < |r| ensures r[i] != last {
        assert r[i] in r;
      }
    }
  }

  // ----- walking along the list -----

  /** From index `i` on the links are those of the list `was`. */
  ghost predicate Tail(was: seq<Obj>, i: nat, cur: Obj?)
    reads (set o | o in was)`next
  {
    && i <= |was| && cur == (if i < |was| then was[i] else null)
    && (forall j | i <= j < |was| :: was[j].next == if j + 1 < |was| then was[j + 1] else null)
  }

  lemma TailStep(was: seq<Obj>, i: nat, cur: Obj?)
    requires Tail(was, i, cur) && cur != null
    ensures i < |was| && cur == was[i] && Tail(was, i + 1, cur.next)
  {
    assert Tail(was, i, cur);
  }

  lemma TailEnd(was: seq<Obj>, i: nat)
    requires Tail(was, i, null)
    ensures i == |was| && was[..i] == was
  {
  }

  lemma LinkAt(from: Obj?, s: seq<Obj>, i: nat)
    requires Chain(from, s, null) && i < |s|
    ensures s[i].next == if i + 1 < |s| then s[i + 1] else null
  {
  }

  lemma ChainPushed(o: Obj, was: seq<Obj>, objects: Obj?)
    requires Chain(objects, was, null) && Distinct(was) && o !in was && o.next == objects
    ensures Chain(o, [o] + was, null) && Distinct([o] + was)
  {
    var s := [o] + was;
    forall i | 0 <= i < |s| ensures s[i].next == if i + 1 < |s| then s[i + 1] else null {
      if i > 0 {
        LinkAt(objects, was, i - 1);
      }
    }
    assert Chain(o, s, null);
  }

  lemma StartList(objects: Obj?, all: seq<Obj>)
    requires Chain(objects, all, null)
    ensures Tail(all, 0, objects)
  {
  }

  lemma Extended(from: Obj?, kept: seq<Obj>, cur: Obj?)
    requires Chain(from, kept, cur) && cur != null
    ensures Chain(from, kept + [cur], cur.next)
  {
    var s := kept + [cur];
    forall i | 0 <= i < |s| ensures s[i].next == if i + 1 < |s| then s[i + 1] else cur.next {
      if i < |kept| {
        assert kept[i].next == if i + 1 < |kept| then kept[i + 1] else cur;
      }
    }
  }

  // ----- the sweep -----

  /** The survivors so far and the objects still to come are different objects. */
  ghost predicate SweptApart(kept: seq<Obj>, was: seq<Obj>, i: nat)
    requires i <= |was|
  {
    && Distinct(kept) && (forall o | o in kept :: o in was)
    && (forall a, b | 0 <= a < |kept| && i <= b < |was| :: kept[a] != was[b])
  }

  /** The survivors so far are unmarked, the objects still to come have their marks. */
  ghost predicate MarksLeft(kept: seq<Obj>, was: seq<Obj>, live: set<Obj>, i: nat)
    reads (set o | o in kept)`marked, (set o | o in was)`marked
  {
    && (forall o | o in kept :: !o.marked)
    && (forall j | i <= j < |was| :: was[j].marked == (was[j] in live))
  }

  ghost function Marked(all: seq<Obj>): set<Obj>
    reads (set o | o in all)`marked
  {
    set o | o in all && o.marked
  }

  lemma StartSweep(was: seq<Obj>, live: set<Obj>, objects: Obj?)
    requires Chain(objects, was, null)
    ensures Survivors(was[..0], live) == [] && SweptApart([], was, 0)
    ensures Chain(objects, [], objects) && Tail(was, 0, objects)
    ensures live == Marked(was) ==> MarksLeft([], was, live, 0)
  {
  }

  /** The last survivor is none of the objects still to come. */
  lemma Unlinked(kept: seq<Obj>, was: seq<Obj>, i: nat)
    requires i < |was| && SweptApart(kept, was, i) && Distinct(was)
    ensures forall j | i < j < |was| :: was[j] != was[i]
    ensures kept != [] ==> forall j | i <= j < |was| :: was[j] != kept[|kept| - 1]
    ensures forall a | 0 <= a < |kept| - 1 :: kept[a] != kept[|kept| - 1]
  {
  }

  /** What one turn of the sweep knows about the object it looks at. */
  lemma Advance(was: seq<Obj>, live: set<Obj>, kept: seq<Obj>, i: nat, cur: Obj, objects: Obj?)
    requires Tail(was, i, cur) && Distinct(was) && Chain(objects, kept, cur)
    requires kept == Survivors(was[..i], live) && SweptApart(kept, was, i) && MarksLeft(kept, was, live, i)
    ensures i < |was| && cur == was[i] && Tail(was, i + 1, cur.next) && Chain(objects, kept + [cur], cur.next)
    ensures MarksLeft(kept, was, live, i + 1)
    ensures Survivors(was[..i + 1], live) == if cur.marked then kept + [cur] else kept
    ensures SweptApart(Survivors(was[..i + 1], live), was, i + 1)
    ensures kept != [] ==> kept[|kept| - 1] in was
  {
    hide Tail, Distinct, Chain, SweptApart, Survivors, MarksLeft;
    TailStep(was, i, cur);
    SweepNext(was, live, kept, i);
    LastKept(kept, was, i);
    Extended(objects, kept, cur);
    NextMark(kept, was, live, i);
  }

  lemma LastKept(kept: seq<Obj>, was: seq<Obj>, i: nat)
    requires i <= |was| && SweptApart(kept, was, i)
    ensures kept != [] ==> kept[|kept| - 1] in was
  {
  }

  lemma NextMark(kept: seq<Obj>, was: seq<Obj>, live: set<Obj>, i: nat)
    requires i < |was| && MarksLeft(kept, was, live, i)
    ensures MarksLeft(kept, was, live, i + 1) && was[i].marked == (was[i] in live)
  {
  }

  method Unmark(o: Obj, ghost kept: seq<Obj>, ghost was: seq<Obj>, ghost live: set<Obj>, ghost i: nat)
    requires MarksLeft(kept, was, live, i + 1) && i < |was| && was[i] == o && Distinct(was)
    modifies o`marked
    ensures MarksLeft(kept + [o], was, live, i + 1)
  {
    o.marked := false;
  }

  lemma SweepNext(was: seq<Obj>, live: set<Obj>, kept: seq<Obj>, i: nat)
    requires i < |was| && Distinct(was) && kept == Survivors(was[..i], live) && SweptApart(kept, was, i)
    ensures Survivors(was[..i + 1], live) == if was[i] in live then kept + [was[i]] else kept
    ensures SweptApart(Survivors(was[..i + 1], live), was, i + 1)
  {
    assert was[..i + 1][..i] == was[..i];
    assert was[..i + 1][i] == was[i];
  }
}
