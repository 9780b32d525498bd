/** The heap of the virtual machine: the object list, the weak table of interned strings
    and the mark-sweep collector. */
module Collector {
  import opened Values
  import opened Probing
  import opened HashSlots
  import opened Objects
  import opened References
  import opened Tracing
  import opened InternSlots
  import opened ObjectList


  ghost function Graph(all: seq<Obj>): Edges
    reads (set o | o in all)`content
  {
    map o | o in all :: Kids(o.content)
  }

  class Heap {
    var objects: Obj?
    // the objects mark_roots visits: stack slots, frames, upvalues and the fixed fields
    var roots: seq<Obj>
    var gray: seq<Obj>
    var interned: array<Obj?>
    var internedCount: nat
    ghost var all: seq<Obj>
    // every object pushed on the gray stack since the collection began, in order
    ghost var pushed: seq<Obj>

    ghost predicate Listed()
      reads this`objects, this`all, (set o | o in all)`next
    {
      Chain(objects, all, null) && Distinct(all)
    }

    /** Between collections. */
    ghost predicate Valid()
      reads this, interned, set o | o in all
    {
      && Listed()
      && Closed(Graph(all), roots)
      && gray == [] && (forall o | o in all :: !o.marked)
      && TableSound(interned[..], internedCount)
      && Members(interned[..]) == Strings(all)
    }

    constructor ()
      ensures Valid() && all == [] && fresh(interned)
    {
      objects := null;
      roots := [];
      gray := [];
      interned := new Obj?[0](_ => null);
      internedCount := 0;
      all := [];
      pushed := [];
      new;
      EmptyInterned(interned[..]);
    }

    // ----- marking -----

    /** Marking is under way; `busy` is the object being blackened. */
    ghost predicate Tracing(edges: Edges, busy: set<Obj>)
      reads this, set o | o in all
    {
      Graph(all) == edges && Closed(edges, roots) && TriColour(edges, roots, Marked(all), gray, pushed, busy)
    }

    /** slp_gc_mark_obj. */
    method Mark(o: Obj, ghost edges: Edges, ghost busy: set<Obj>)
      requires Tracing(edges, busy) && o in all && Reachable(edges, roots, o)
      modifies this`gray, this`pushed, o`marked
      ensures Tracing(edges, busy) && Marked(all) == old(Marked(all)) + {o}
      ensures |pushed| - |old(pushed)| == |gray| - |old(gray)| && |pushed| >= |old(pushed)|
    {
      hide TriColour, Closed, Reachable, Kids;
      if o.marked {
        return;
      }
      Pushed(edges, roots, Marked(all), gray, pushed, busy, o);
      o.marked := true;
      gray := gray + [o];
      pushed := pushed + [o];
      assert Marked(all) == old(Marked(all)) + {o};
      assert Graph(all) == old(Graph(all));
    }

    /** mark_roots. */
    method MarkRoots(ghost edges: Edges)
      requires Tracing(edges, {})
      modifies this`gray, this`pushed, (set o | o in all)`marked
      ensures Tracing(edges, {}) && AllMarked(roots, Marked(all))
    {
      hide TriColour, Reachable, Kids, Marked;
      for i := 0 to |roots|
        invariant Tracing(edges, {}) && AllMarked(roots[..i], Marked(all))
      {
        InHeap(all, roots, roots[i]);
        RootReachable(edges, roots, roots[i]);
        Mark(roots[i], edges, {});
      }
      assert roots[..|roots|] == roots;
    }

    /** blacken_object. */
    method Blacken(o: Obj, ghost edges: Edges)
      requires Tracing(edges, {o}) && o in all && Reachable(edges, roots, o)
      modifies this`gray, this`pushed, (set x | x in all)`marked
      ensures Tracing(edges, {}) && old(Marked(all)) <= Marked(all)
      ensures forall x :: Refers(o.content, x) ==> x in Marked(all)
      ensures |pushed| - |old(pushed)| == |gray| - |old(gray)| && |pushed| >= |old(pushed)|
    {
      hide TriColour, Reachable, Kids, Marked, Refers;
      var kids := Kids(o.content);
      assert kids == edges[o];
      for i := 0 to |kids|
        invariant Tracing(edges, {o}) && AllMarked(kids[..i], Marked(all)) && old(Marked(all)) <= Marked(all)
        invariant |pushed| - |old(pushed)| == |gray| - |old(gray)| && |pushed| >= |old(pushed)|
      {
        KidInHeap(all, roots, o, i);
        KidReachable(edges, roots, o, kids[i]);
        Mark(kids[i], edges, {o});
      }
      assert kids[..|kids|] == kids;
      Blackened(edges, roots, Marked(all), gray, pushed, o);
      forall x | Refers(o.content, x) ensures x in Marked(all) {
        KidsAre(o.content, x);
      }
    }

    /** trace_references: every object is pushed at most once, so the loop ends. */
    method Trace(ghost edges: Edges)
      requires Tracing(edges, {}) && AllMarked(roots, Marked(all))
      modifies this`gray, this`pushed, (set o | o in all)`marked
      ensures Tracing(edges, {}) && gray == []
      ensures forall o :: o in Marked(all) <==> Reachable(edges, roots, o)
    {
      hide TriColour, Reachable, Kids, Marked, Closed;
      PushLimit(edges, roots, Marked(all), gray, pushed, {});
      while gray != []
        invariant Tracing(edges, {}) && AllMarked(roots, Marked(all)) && |pushed| <= |edges.Keys|
        decreases 2 * (|edges.Keys| - |pushed|) + |gray|
      {
        var o := gray[|gray| - 1];
        Popped(edges, roots, Marked(all), gray, pushed);
        TopReachable(edges, roots, Marked(all), gray, pushed);
        gray := gray[..|gray| - 1];
        Blacken(o, edges);
        PushLimit(edges, roots, Marked(all), gray, pushed, {});
      }
      MarkedIsReachable(edges, roots, Marked(all), pushed);
    }

    // ----- sweeping -----

    /** The assignment through obj_ptr: the link that led to `unreached` skips it. */
    method Unlink(prev: Obj?, unreached: Obj, ghost kept: seq<Obj>, ghost was: seq<Obj>, ghost i: nat)
      requires i < |was| && was[i] == unreached && Tail(was, i + 1, unreached.next)
      requires Chain(objects, kept, unreached) && (if kept == [] then prev == null else prev == kept[|kept| - 1])
      requires SweptApart(kept, was, i) && Distinct(was)
      modifies this`objects, (if prev == null then {} else {prev})`next
      ensures Chain(objects, kept, unreached.next) && Tail(was, i + 1, unreached.next)
      ensures unreached.next == old(unreached.next)
    {
      Unlinked(kept, was, i);
      if prev == null {
        objects := unreached.next;
      } else {
        prev.next := unreached.next;
      }
      assert forall j | i <= j < |was| :: was[j].next == old(was[j].next);
    }

    /** slp_gc_sweep: the marked objects stay, in order and unmarked. */
    method Sweep()
      requires Listed()
      modifies this`objects, this`all, (set o | o in all)`next, (set o | o in all)`marked
      ensures Listed() && all == Survivors(old(all), old(Marked(all)))
      ensures forall o | o in all :: !o.marked
    {
      hide Survivors, Marked, SweptApart, Distinct, Chain, Tail, MarksLeft;
      ghost var was, live := all, Marked(all);
      var prev: Obj?, cur := null, objects;
      ghost var kept: seq<Obj>, i := [], 0;
      StartSweep(was, live, objects);
      assert Sweeping(was, live, kept, i, prev, cur);
      hide Sweeping;
      while cur != null
        invariant all == was && Sweeping(was, live, kept, i, prev, cur)
        decreases |was| - i
      {
        StillToCome(was, live, kept, i, prev, cur);
        prev, cur, kept := SweepOne(was, live, kept, i, prev, cur);
        i := i + 1;
      }
      EndSweep(was, live, kept, i, prev);
      all := kept;
    }

    ghost predicate Sweeping(was: seq<Obj>, live: set<Obj>, kept: seq<Obj>, i: nat, prev: Obj?, cur: Obj?)
      reads this`objects, (set o | o in was)`next, (set o | o in kept)`next, (set o | o in was)`marked, (set o | o in kept)`marked
    {
      && i <= |was| && Distinct(was) && kept == Survivors(was[..i], live) && SweptApart(kept, was, i)
      && Chain(objects, kept, cur) && Tail(was, i, cur)
      && (if kept == [] then prev == null else prev == kept[|kept| - 1])
      && MarksLeft(kept, was, live, i)
    }

    /** One turn of the loop of slp_gc_sweep. */
    method SweepOne(ghost was: seq<Obj>, ghost live: set<Obj>, ghost kept: seq<Obj>, ghost i: nat, prev: Obj?, cur: Obj)
      returns (prev': Obj?, cur': Obj?, ghost kept': seq<Obj>)
      requires Sweeping(was, live, kept, i, prev, cur)
      modifies this`objects, (set o | o in was)`next, (set o | o in was)`marked
      ensures Sweeping(was, live, kept', i + 1, prev', cur')
    {
      hide Survivors, SweptApart, Distinct, Chain, Tail, MarksLeft;
      Advance(was, live, kept, i, cur, objects);
      if cur.marked {
        Unmark(cur, kept, was, live, i);
        prev', cur', kept' := cur, cur.next, kept + [cur];
      } else {
        Unlink(prev, cur, kept, was, i);
        prev', cur', kept' := prev, cur.next, kept;
      }
    }

    lemma StillToCome(was: seq<Obj>, live: set<Obj>, kept: seq<Obj>, i: nat, prev: Obj?, cur: Obj?)
      requires Sweeping(was, live, kept, i, prev, cur) && cur != null
      ensures i < |was|
    {
    }

    lemma EndSweep(was: seq<Obj>, live: set<Obj>, kept: seq<Obj>, i: nat, prev: Obj?)
      requires Sweeping(was, live, kept, i, prev, null)
      ensures kept == Survivors(was, live) && Distinct(kept) && Chain(objects, kept, null)
      ensures forall o | o in kept :: !o.marked
    {
      hide Survivors;
      TailEnd(was, i);
      SurvivorsDistinct(was, live);
    }

    // ----- the table of interned strings -----

    /** rebuild_interned: exactly the strings still on the object list are interned. */
    method Rebuild()
      requires Listed() && InternCapacity(interned.Length) && Canonical(Strings(all))
      requires 2 * |Strings(all)| <= interned.Length
      modifies this`internedCount, interned
      ensures TableSound(interned[..], internedCount) && Members(interned[..]) == Strings(all)
    {
      hide Interned, InternCapacity, LiveCount, Members, Strings, Canonical, StringHash, Chain, Distinct;
      if interned.Length == 0 {
        NoStrings(all, interned[..]);
        internedCount := 0;
        return;
      }
      for i := 0 to interned.Length
        invariant interned == old(interned) && forall j | 0 <= j < i :: interned[j] == null
      {
        interned[i] := null;
      }
      internedCount := 0;
      EmptyInterned(interned[..]);
      ghost var n := 0;
      var o := objects;
      StartList(objects, all);
      StringsOfNone(all);
      while o != null
        invariant interned == old(interned) && Tail(all, n, o)
        invariant Interned(interned[..]) && internedCount == LiveCount(Texts(interned[..]))
        invariant Members(interned[..]) == Strings(all[..n])
        decreases |all| - n
      {
        TailStep(all, n, o);
        MoreStrings(all, n, interned[..], internedCount);
        if o.text.Some? {
          Fits(all, interned[..], internedCount);
          var idx := FreePlace(interned, Home(o.text.value, interned.Length));
          Placed(interned[..], idx, o);
          interned[idx] := o;
          internedCount := internedCount + 1;
        }
        o := o.next;
        n := n + 1;
      }
      TailEnd(all, n);
      Rebuilt(all, interned[..], internedCount);
    }

    /** slp_gc_collect: the objects that stay are exactly those in use, what they refer to
        stays too, each of them was pushed once, no content changes, and Valid holds again:
        no mark is left, the gray stack is empty and exactly the strings that stay are
        interned. */
    method Collect()
      requires Valid()
      modifies this`objects, this`all, this`gray, this`pushed, this`internedCount, interned
      modifies (set o | o in all)`next, (set o | o in all)`marked
      ensures Valid()
      ensures forall o | o in old(all) :: o in all <==> old(InUse(all, roots, o))
      ensures forall o, x | o in all && Refers(o.content, x) :: x in all
      ensures all == Survivors(old(all), set o | o in old(all) && o in all)
      ensures forall o | o in old(all) :: o.content == old(o.content)
      ensures |pushed| == |all| && forall o | o in all :: o in pushed
    {
      hide Reachable, Kids, Closed, Survivors, Members, Strings, TableSound, Chain, Distinct, Marked, Canonical, InternCapacity;
      hide InUse, Refers;
      ghost var edges, was := Graph(all), all;
      forall o | o in all ensures Reachable(edges, roots, o) <==> InUse(all, roots, o) {
        ReachableInUse(all, roots, o, edges);
      }
      ghost var es, count := interned[..], internedCount;
      MarkPhase(edges);
      ghost var live := Marked(all);
      MarkedOnes(all);
      Sweep();
      LiveCounted(was, live, all);
      FewerStrings(es, count, was, all);
      Rebuild();
      GraphLeft(was, live, edges, all);
      NothingDangling(all, roots);
    }

    /** mark_roots and trace_references. */
    method MarkPhase(ghost edges: Edges)
      requires Graph(all) == edges && Closed(edges, roots) && gray == [] && forall o | o in all :: !o.marked
      modifies this`gray, this`pushed, (set o | o in all)`marked
      ensures gray == [] && Closed(Restricted(edges, Marked(all)), roots)
      ensures forall o | o in all :: o in Marked(all) <==> Reachable(edges, roots, o)
      ensures |pushed| == |Marked(all)| && forall o | o in Marked(all) :: o in pushed
    {
      hide TriColour, Reachable, Kids, Closed, AllMarked;
      pushed := [];
      assert Marked(all) == {};
      NothingMarked(edges, roots);
      MarkRoots(edges);
      Trace(edges);
      AllPushed(edges, roots, Marked(all), pushed);
      StillClosed(edges, roots, Marked(all));
    }

    /** intern_grow. */
    method GrowTable()
      requires Valid() && interned.Length > 0
      modifies this`interned
      ensures Valid() && fresh(interned) && interned.Length == 2 * old(interned.Length)
    {
      hide Interned, LiveCount, Members, Strings, StringHash, Chain, Distinct, Graph, Closed;
      ghost var es := interned[..];
      var size := interned.Length * 2;
      var table := new Obj?[size](_ => null);
      StartTable(es, table[..]);
      for i := 0 to interned.Length
        invariant interned == old(interned) && interned[..] == es && table.Length == size && fresh(table)
        invariant Interned(table[..]) && Members(table[..]) == Members(es[..i])
      {
        MoreMembers(es, i, table[..]);
        if interned[i] != null {
          MembersFit(es, i, table[..]);
          var idx := FreePlace(table, Home(interned[i].text.value, size));
          Placed(table[..], idx, interned[i]);
          table[idx] := interned[i];
        }
      }
      assert es[..interned.Length] == es;
      Regrown(es, internedCount, table[..]);
      interned := table;
    }

    /** slp_vm_intern_string: a string with these characters is found when there is one,
        and created, listed and interned when there is none. */
    method Intern(chars: string) returns (s: Obj)
      requires Valid()
      modifies this`objects, this`all, this`interned, this`internedCount, interned
      ensures Valid() && s in all && s.text == Some(chars)
      ensures if exists o :: o in old(all) && o.text == Some(chars)
              then s in old(all) && all == old(all)
              else fresh(s) && all == [s] + old(all)
    {
      hide Interned, LiveCount, Members, StringHash, Listed, Graph, Closed, InternCapacity, TableSound;
      var known := Lookup(chars);
      if known != null {
        return known;
      }
      Reserve();
      s := Create(chars);
    }

    /** The table is created or doubled when it is half full. */
    method Reserve()
      requires Valid()
      modifies this`interned
      ensures Valid() && 2 * (internedCount + 1) <= interned.Length && (interned == old(interned) || fresh(interned))
    {
      hide Interned, LiveCount, Members, StringHash, Chain, Distinct, Graph, Closed, InternCapacity;
      if internedCount * 2 >= interned.Length {
        if interned.Length == 0 {
          FirstTable(interned[..], seq(INTERN_FIRST, _ => null), internedCount, all);
          interned := new Obj?[INTERN_FIRST](_ => null);
          assert interned[..] == seq(INTERN_FIRST, _ => null);
        } else {
          GrowTable();
        }
      }
      RoomForOne(interned.Length, internedCount);
    }

    /** The new string object is listed and takes the first free slot from its home. */
    method Create(chars: string) returns (s: Obj)
      requires Valid() && 2 * (internedCount + 1) <= interned.Length && forall o | o in all :: o.text != Some(chars)
      modifies this`objects, this`all, this`internedCount, interned
      ensures Valid() && fresh(s) && s.text == Some(chars) && all == [s] + old(all)
    {
      hide Interned, LiveCount, Members, StringHash, Listed, Graph, Closed, InternCapacity;
      MissingText(interned[..], chars, all);
      FewInterned(interned[..], internedCount);
      ghost var es := interned[..];
      s := Link(Some(chars), Leaf);
      var idx := FreePlace(interned, Home(chars, interned.Length));
      Placed(es, idx, s);
      interned[idx] := s;
      internedCount := internedCount + 1;
      assert Strings(all) == old(Strings(all)) + {s};
    }

    /** The probe loop of slp_vm_intern_string. */
    method Lookup(chars: string) returns (s: Obj?)
      requires Valid()
      ensures s != null ==> s in all && s.text == Some(chars)
      ensures s == null ==> forall o | o in all :: o.text != Some(chars)
    {
      hide Interned, LiveCount, Members, StringHash, Chain, Distinct, Graph, Closed, InternCapacity, Passed;
      if interned.Length == 0 {
        NothingInterned(interned[..], chars, all);
        return null;
      }
      ghost var es := interned[..];
      var size := interned.Length;
      var idx := Home(chars, size);
      var probes := 0;
      StartProbing(es, chars);
      while probes < size && interned[idx] != null
        invariant probes <= size && idx == Probe(Home(chars, size), if probes == size then 0 else probes, size)
        invariant Passed(Texts(es), chars, probes)
        decreases size - probes
      {
        TextAt(es, idx);
        if interned[idx].text.value == chars {
          return interned[idx];
        }
        PassText(es, chars, probes);
        idx := Next(idx, size);
        probes := probes + 1;
      }
      ProbingEnds(es, chars, probes, all);
      return null;
    }

    /** track_object: a new object at the head of the list. */
    method Link(text: Option<string>, content: Content) returns (o: Obj)
      requires Listed() && Closed(Graph(all), roots) && forall k :: Refers(content, k) ==> k in all
      modifies this`objects, this`all
      ensures fresh(o) && o.text == text && o.content == content && !o.marked
      ensures all == [o] + old(all) && Listed() && Closed(Graph(all), roots)
    {
      hide Kids, Closed, Distinct, Chain;
      ghost var was, edges := all, Graph(all);
      var kids := Kids(content);
      forall i | 0 <= i < |kids| ensures kids[i] in all {
        var k := kids[i];
        KidsAre(content, k);
      }
      o := new Obj(text, content, objects);
      ChainPushed(o, was, objects);
      objects := o;
      all := [o] + was;
      assert Graph(all) == edges[o := Kids(content)];
      ClosedExtended(edges, roots, o, Kids(content));
    }

    /** Creating an object that is not a string. */
    method Track(content: Content) returns (o: Obj)
      requires Valid() && forall k :: Refers(content, k) ==> k in all
      modifies this`objects, this`all
      ensures Valid() && fresh(o) && o.text == None && o.content == content && all == [o] + old(all)
    {
      hide TableSound, Kids, Listed, Closed, Graph, Refers;
      o := Link(None, content);
      assert Strings(all) == old(Strings(all));
    }
  }

  /** The inner loop of rebuild_interned, intern_grow and slp_vm_intern_string. */
  method FreePlace(table: array<Obj?>, home: nat) returns (idx: nat)
    requires home < table.Length && OnlyStrings(table[..]) && LiveCount(Texts(table[..])) < table.Length
    ensures idx < table.Length && table[idx] == null
    ensures forall k | 0 <= k < Distance(home, idx, table.Length) :: table[Probe(home, k, table.Length)] != null
  {
    AllLive(Texts(table[..]));
    ghost var free :| 0 <= free < table.Length && !Texts(table[..])[free].Live();
    idx := home;
    ghost var n := 0;
    while table[idx] != null
      invariant n <= Distance(home, free, table.Length) && idx == Probe(home, n, table.Length)
      invariant forall k | 0 <= k < n :: table[Probe(home, k, table.Length)] != null
      decreases table.Length - n
    {
      assert idx != free;
      idx := Next(idx, table.Length);
      n := n + 1;
    }
  }

  /** No object of a closed heap refers to an object outside of it. */
  lemma NothingDangling(all: seq<Obj>, roots: seq<Obj>)
    requires Closed(Graph(all), roots)
    ensures forall o, x | o in all && Refers(o.content, x) :: x in all
  {
    hide Kids, Refers;
    forall o, x | o in all && Refers(o.content, x) ensures x in all {
      KidsAre(o.content, x);
      var i :| 0 <= i < |Kids(o.content)| && Kids(o.content)[i] == x;
      KidInHeap(all, roots, o, i);
    }
  }

  /** The heap graph cut down to the live objects. */
  ghost function Restricted(edges: Edges, live: set<Obj>): Edges {
    map o | o in edges && o in live :: edges[o]
  }

  lemma MarkedOnes(all: seq<Obj>)
    ensures forall o | o in Marked(all) :: o in all
  {
  }

  lemma GraphLeft(was: seq<Obj>, live: set<Obj>, edges: Edges, all: seq<Obj>)
    requires Graph(was) == edges && all == Survivors(was, live)
    ensures Graph(all) == Restricted(edges, live)
  {
    hide Kids;
  }

  lemma LiveCounted(was: seq<Obj>, live: set<Obj>, all: seq<Obj>)
    requires Distinct(was) && all == Survivors(was, live) && forall o | o in live :: o in was
    ensures |all| == |live| && live == (set o | o in was && o in all)
  {
    SurvivorsDistinct(was, live);
    SizeOfDistinct(all, live);
  }

  lemma StillClosed(edges: Edges, roots: seq<Obj>, live: set<Obj>)
    requires Closed(edges, roots) && forall o :: o in live <==> Reachable(edges, roots, o)
    ensures Closed(Restricted(edges, live), roots)
  {
    forall i | 0 <= i < |roots| ensures roots[i] in live {
      RootReachable(edges, roots, roots[i]);
    }
    forall o, i | o in edges && o in live && 0 <= i < |edges[o]| ensures edges[o][i] in live {
      KidReachable(edges, roots, o, edges[o][i]);
    }
  }

  lemma AllPushed(edges: Edges, roots: seq<Obj>, live: set<Obj>, pushed: seq<Obj>)
    requires TriColour(edges, roots, live, [], pushed, {})
    ensures |pushed| == |live| && (forall o | o in live :: o in pushed) && live <= edges.Keys
  {
    SizeOfDistinct(pushed, live);
  }

  lemma {:induction false} SizeOfDistinct(s: seq<Obj>, objects: set<Obj>)
    requires Distinct(s) && (forall o | o in s :: o in objects) && (forall o | o in objects :: o in s)
    ensures |s| == |objects|
    decreases |s|
  {
    if s == [] {
      assert objects == {};
    } else {
      var rest, o := s[..|s| - 1], s[|s| - 1];
      assert s == rest + [o];
      forall x | x in rest ensures x in objects - {o} {
        var i :| 0 <= i < |rest| && rest[i] == x;
        assert s[i] == x;
      }
      assert o in s;
      SizeOfDistinct(rest, objects - {o});
    }
  }

  /** The strings that stay were interned before, so they fit and are canonical. */
  lemma FewerStrings(es: seq<Obj?>, count: nat, was: seq<Obj>, all: seq<Obj>)
    requires TableSound(es, count) && Members(es) == Strings(was) && forall o | o in all :: o in was
    ensures 2 * |Strings(all)| <= |es| && Canonical(Strings(all)) && InternCapacity(|es|)
  {
    MemberCount(es);
    FewerMembers(Strings(all), Strings(was));
    forall a, b | a in Strings(all) && b in Strings(all) && a.text == b.text ensures a == b {
      Found(es, a, b);
    }
  }

  /** In every state between collections strings with the same characters are the same
      object. */
  lemma CanonicalHeap(h: Heap)
    requires h.Valid()
    ensures Canonical(Strings(h.all))
  {
    hide Interned, Members;
    FewerStrings(h.interned[..], h.internedCount, h.all, h.all);
  }

  lemma ClosedExtended(edges: Edges, roots: seq<Obj>, o: Obj, kids: seq<Obj>)
    requires Closed(edges, roots) && o !in edges && forall k | k in kids :: k in edges
    ensures Closed(edges[o := kids], roots)
  {
    forall i | 0 <= i < |kids| ensures kids[i] in edges {
      assert kids[i] in kids;
    }
  }

  lemma InHeap(all: seq<Obj>, roots: seq<Obj>, o: Obj)
    requires Closed(Graph(all), roots) && o in roots
    ensures o in all
  {
  }

  lemma KidInHeap(all: seq<Obj>, roots: seq<Obj>, o: Obj, i: nat)
    requires Closed(Graph(all), roots) && o in all && i < |Kids(o.content)|
    ensures o in Graph(all) && Graph(all)[o] == Kids(o.content) && Kids(o.content)[i] in all
  {
    hide Kids;
    assert Graph(all)[o][i] in Graph(all);
  }

  lemma PushLimit(edges: Edges, roots: seq<Obj>, marked: set<Obj>, gray: seq<Obj>, pushed: seq<Obj>, busy: set<Obj>)
    requires TriColour(edges, roots, marked, gray, pushed, busy)
    ensures |pushed| <= |edges.Keys|
  {
    PushesBounded(pushed, edges.Keys);
  }

  lemma TopReachable(edges: Edges, roots: seq<Obj>, marked: set<Obj>, gray: seq<Obj>, pushed: seq<Obj>)
    requires TriColour(edges, roots, marked, gray, pushed, {}) && gray != []
    ensures var o := gray[|gray| - 1]; o in marked && o in edges && Reachable(edges, roots, o)
  {
    hide Reachable;
  }
}
