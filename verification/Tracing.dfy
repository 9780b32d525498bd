/** Reachability and the tri-colour invariant of the marking phase, on sets. */
module Tracing {
  import opened Objects

  /** The references of each object in the heap. */
  type Edges = map<Obj, seq<Obj>>

  /** Every reference leads to an object of the heap. */
  ghost predicate Closed(edges: Edges, roots: seq<Obj>) {
    && (forall i | 0 <= i < |roots| :: roots[i] in edges)
    && (forall o, i | o in edges && 0 <= i < |edges[o]| :: edges[o][i] in edges)
  }

  /** The objects a root leads to along at most `n` references. */
  ghost function Within(edges: Edges, roots: seq<Obj>, n: nat): set<Obj> {
    if n == 0 then set o | o in edges && o in roots
    else
      var near := Within(edges, roots, n - 1);
      near + set o | o in edges && exists from | from in near && from in edges :: o in edges[from]
  }

  ghost predicate Reachable(edges: Edges, roots: seq<Obj>, o: Obj) {
    exists n: nat :: o in Within(edges, roots, n)
  }

  lemma RootReachable(edges: Edges, roots: seq<Obj>, o: Obj)
    requires Closed(edges, roots) && o in roots
    ensures Reachable(edges, roots, o)
  {
    assert o in Within(edges, roots, 0);
  }

  lemma KidReachable(edges: Edges, roots: seq<Obj>, o: Obj, kid: Obj)
    requires Closed(edges, roots) && Reachable(edges, roots, o) && o in edges && kid in edges[o]
    ensures Reachable(edges, roots, kid)
  {
    var n: nat :| o in Within(edges, roots, n);
    assert kid in Within(edges, roots, n + 1);
  }

  /** Marked objects are reachable; those that are neither gray nor being blackened have
      all their references marked; every mark was pushed once. */
  ghost predicate TriColour(edges: Edges, roots: seq<Obj>, marked: set<Obj>, gray: seq<Obj>, pushed: seq<Obj>, busy: set<Obj>) {
    && marked <= edges.Keys
    && (forall o | o in marked :: Reachable(edges, roots, o))
    && (forall o | o in marked && o !in gray && o !in busy :: AllMarked(edges[o], marked))
    && (forall o | o in pushed :: o in marked)
    && (forall o | o in marked :: o in pushed)
    && (forall i, j | 0 <= i < j < |pushed| :: pushed[i] != pushed[j])
    && (forall o | o in gray :: o in marked)
  }

  ghost predicate AllMarked(os: seq<Obj>, marked: set<Obj>) {
    forall i | 0 <= i < |os| :: os[i] in marked
  }

  lemma NothingMarked(edges: Edges, roots: seq<Obj>)
    ensures TriColour(edges, roots, {}, [], [], {})
  {
  }

  /** Marking and pushing one more reachable object. */
  lemma Pushed(edges: Edges, roots: seq<Obj>, marked: set<Obj>, gray: seq<Obj>, pushed: seq<Obj>, busy: set<Obj>, o: Obj)
    requires TriColour(edges, roots, marked, gray, pushed, busy)
    requires o in edges && o !in marked && Reachable(edges, roots, o)
    ensures TriColour(edges, roots, marked + {o}, gray + [o], pushed + [o], busy)
  {
    hide Reachable;
    forall x | x in marked + {o} && x !in gray + [o] && x !in busy
      ensures AllMarked(edges[x], marked + {o})
    {
      assert o in gray + [o];
      assert x in marked && x !in gray;
    }
  }

  /** Taking the top of the gray stack to blacken it. */
  lemma Popped(edges: Edges, roots: seq<Obj>, marked: set<Obj>, gray: seq<Obj>, pushed: seq<Obj>)
    requires TriColour(edges, roots, marked, gray, pushed, {}) && gray != []
    ensures var o := gray[|gray| - 1];
            o in marked && TriColour(edges, roots, marked, gray[..|gray| - 1], pushed, {o})
  {
    hide Reachable, AllMarked;
    var rest, o := gray[..|gray| - 1], gray[|gray| - 1];
    assert gray == rest + [o];
  }

  /** The object is black once all its references are marked. */
  lemma Blackened(edges: Edges, roots: seq<Obj>, marked: set<Obj>, gray: seq<Obj>, pushed: seq<Obj>, o: Obj)
    requires TriColour(edges, roots, marked, gray, pushed, {o})
    requires o in edges && AllMarked(edges[o], marked)
    ensures TriColour(edges, roots, marked, gray, pushed, {})
  {
  }

  /** With an empty gray stack and marked roots, exactly the reachable objects are
      marked. */
  lemma MarkedIsReachable(edges: Edges, roots: seq<Obj>, marked: set<Obj>, pushed: seq<Obj>)
    requires Closed(edges, roots) && TriColour(edges, roots, marked, [], pushed, {}) && AllMarked(roots, marked)
    ensures forall o :: o in marked <==> Reachable(edges, roots, o)
  {
    forall o | Reachable(edges, roots, o) ensures o in marked {
      var n: nat :| o in Within(edges, roots, n);
      WithinMarked(edges, roots, marked, pushed, n);
    }
  }

  lemma {:induction false} WithinMarked(edges: Edges, roots: seq<Obj>, marked: set<Obj>, pushed: seq<Obj>, n: nat)
    requires TriColour(edges, roots, marked, [], pushed, {}) && AllMarked(roots, marked)
    ensures Within(edges, roots, n) <= marked
  {
    hide Reachable;
    if n > 0 {
      WithinMarked(edges, roots, marked, pushed, n - 1);
      var near := Within(edges, roots, n - 1);
      forall o, from | from in near && from in edges && o in edges[from] ensures o in marked {
        assert AllMarked(edges[from], marked);
      }
    }
  }

  /** No more pushes than objects. */
  lemma {:induction false} PushesBounded(pushed: seq<Obj>, objects: set<Obj>)
    requires forall o | o in pushed :: o in objects
    requires forall i, j | 0 <= i < j < |pushed| :: pushed[i] != pushed[j]
    ensures |pushed| <= |objects|
    decreases |pushed|
  {
    if pushed != [] {
      var o := pushed[|pushed| - 1];
      var rest := pushed[..|pushed| - 1];
      forall x | x in rest ensures x in objects - {o} {
        var i :| 0 <= i < |rest| && rest[i] == x;
        assert pushed[i] == x;
      }
      assert o in pushed;
      PushesBounded(rest, objects - {o});
    }
  }
}
