/** Which objects an object refers to, field by field, and what it means to be in use: the
    reading the collector is held to. */
module References {
  import opened Objects
  import opened Tracing

  predicate InFrame(f: FrameRefs, o: Obj) {
    f.closure == o || f.localScopes == o || f.closureScope == o || f.continuationReturn == o
    || f.traceCall == o || f.traceSource == o
  }

  predicate InFrames(fs: seq<FrameRefs>, o: Obj) {
    exists i :: 0 <= i < |fs| && InFrame(fs[i], o)
  }

  predicate InPairs(ps: seq<(Obj?, Obj?)>, o: Obj) {
    exists i :: 0 <= i < |ps| && (ps[i].0 == o || ps[i].1 == o)
  }

  /** A slot with a key holds its key and its value. */
  predicate InEntries(es: seq<(Val, Val)>, o: Obj) {
    exists i :: 0 <= i < |es| && es[i].0 != Nil && (es[i].0 == Ref(o) || es[i].1 == Ref(o))
  }

  /** Some field of the content holds `o`. */
  predicate Refers(c: Content, o: Obj) {
    match c
    case Leaf => false
    case ClassObject(name, interfaces, fields) => name == o || interfaces == o || fields == o
    case JavaObject(classObject, list, table, fields, value) =>
      classObject == o || list == o || table == o || fields == o || value == Ref(o)
    case Array(elements, viewSource) => Ref(o) in elements || viewSource == o
    case Hash(entries, missPolicy, removalPolicy) => InEntries(entries, o) || missPolicy == o || removalPolicy == o
    case Function(name, sourceName, constants) => name == o || sourceName == o || Ref(o) in constants
    case Closure(function_, scope, callName, regexStates, lastMatches, upvalues, coroutineStack, coroutineFrames) =>
      function_ == o || scope == o || callName == o || InPairs(regexStates, o) || lastMatches == o
      || o in upvalues || Ref(o) in coroutineStack || InFrames(coroutineFrames, o)
    case Upvalue(closed) => closed == Ref(o)
    case Continuation(stack, frames, owner, traceCall, traceSource) =>
      Ref(o) in stack || InFrames(frames, o) || owner == o || traceCall == o || traceSource == o
    case Native(name) => name == o
    case Bridge(keyword, name, closure) => keyword == o || name == o || closure == o
    case Handle(token, objects) => token == Ref(o) || Ref(o) in objects
    case KeyValue(key, value) => key == Ref(o) || value == Ref(o)
    case Tainted(value) => value == Ref(o)
    case Cell(value, watchName) => value == Ref(o) || watchName == o
  }

  // ----- the collector's lists -----

  lemma {:induction false} ValsAre(vs: seq<Val>, o: Obj)
    ensures o in OfVals(vs) <==> Ref(o) in vs
  {
    if vs != [] {
      assert vs == [vs[0]] + vs[1..];
      ValsAre(vs[1..], o);
    }
  }

  lemma {:induction false} PointersAre(os: seq<Obj?>, o: Obj)
    ensures o in OfPointers(os) <==> o in os
  {
    if os != [] {
      assert os == [os[0]] + os[1..];
      PointersAre(os[1..], o);
    }
  }

  lemma {:induction false} EntriesAre(es: seq<(Val, Val)>, o: Obj)
    ensures o in OfEntries(es) <==> InEntries(es, o)
  {
    if es != [] {
      var rest := es[1..];
      EntriesAre(rest, o);
      if InEntries(rest, o) {
        var i :| 0 <= i < |rest| && rest[i].0 != Nil && (rest[i].0 == Ref(o) || rest[i].1 == Ref(o));
        assert es[i + 1] == rest[i];
      }
      if InEntries(es, o) && o !in OfEntries(es[..1]) {
        var i :| 0 <= i < |es| && es[i].0 != Nil && (es[i].0 == Ref(o) || es[i].1 == Ref(o));
        assert i > 0 ==> es[i] == rest[i - 1];
      }
    }
  }

  lemma {:induction false} PairsAre(ps: seq<(Obj?, Obj?)>, o: Obj)
    ensures o in OfPairs(ps) <==> InPairs(ps, o)
  {
    if ps != [] {
      var rest := ps[1..];
      PairsAre(rest, o);
      if InPairs(rest, o) {
        var i :| 0 <= i < |rest| && (rest[i].0 == o || rest[i].1 == o);
        assert ps[i + 1] == rest[i];
      }
      if InPairs(ps, o) {
        var i :| 0 <= i < |ps| && (ps[i].0 == o || ps[i].1 == o);
        assert i > 0 ==> ps[i] == rest[i - 1];
      }
    }
  }

  lemma {:induction false} FramesAre(fs: seq<FrameRefs>, o: Obj)
    ensures o in OfFrames(fs) <==> InFrames(fs, o)
  {
    hide OfPointers;
    if fs != [] {
      var f, rest := fs[0], fs[1..];
      FramesAre(rest, o);
      PointersAre([f.closure, f.localScopes, f.closureScope, f.continuationReturn, f.traceCall, f.traceSource], o);
      if InFrames(rest, o) {
        var i :| 0 <= i < |rest| && InFrame(rest[i], o);
        assert fs[i + 1] == rest[i];
      }
      if InFrames(fs, o) {
        var i :| 0 <= i < |fs| && InFrame(fs[i], o);
        assert i > 0 ==> fs[i] == rest[i - 1];
      }
    }
  }

  /** blacken_object follows every reference and nothing else. */
  lemma KidsAre(c: Content, o: Obj)
    ensures o in Kids(c) <==> Refers(c, o)
  {
    hide OfPointers, OfVals, OfEntries, OfPairs, OfFrames, InEntries, InPairs, InFrames;
    match c
    case Leaf =>
    case ClassObject(name, interfaces, fields) => PointersAre([name, interfaces, fields], o);
    case JavaObject(classObject, list, table, fields, value) => PointersAre([classObject, list, table, fields], o);
    case Array(elements, viewSource) => ValsAre(elements, o);
    case Hash(entries, missPolicy, removalPolicy) =>
      EntriesAre(entries, o);
      PointersAre([missPolicy, removalPolicy], o);
    case Function(name, sourceName, constants) =>
      PointersAre([name, sourceName], o);
      ValsAre(constants, o);
    case Closure(function_, scope, callName, regexStates, lastMatches, upvalues, coroutineStack, coroutineFrames) =>
      PointersAre([function_, scope, callName], o);
      PairsAre(regexStates, o);
      PointersAre(upvalues, o);
      ValsAre(coroutineStack, o);
      FramesAre(coroutineFrames, o);
    case Upvalue(closed) =>
    case Continuation(stack, frames, owner, traceCall, traceSource) =>
      ValsAre(stack, o);
      FramesAre(frames, o);
      PointersAre([owner, traceCall, traceSource], o);
    case Native(name) =>
    case Bridge(keyword, name, closure) => PointersAre([keyword, name, closure], o);
    case Handle(token, objects) => ValsAre(objects, o);
    case KeyValue(key, value) =>
    case Tainted(value) =>
    case Cell(value, watchName) =>
  }

  // ----- being in use -----

  /** A chain of references from a root to `o`, by places in the object list. */
  ghost predicate Leads(all: seq<Obj>, roots: seq<Obj>, path: seq<nat>, o: Obj)
    reads (set x | x in all)`content
  {
    && path != [] && (forall i | 0 <= i < |path| :: path[i] < |all|)
    && all[path[0]] in roots && all[path[|path| - 1]] == o
    && (forall i | 0 < i < |path| :: Refers(all[path[i - 1]].content, all[path[i]]))
  }

  ghost predicate InUse(all: seq<Obj>, roots: seq<Obj>, o: Obj)
    reads (set x | x in all)`content
  {
    exists path :: Leads(all, roots, path, o)
  }

  /** The edges are those of the heap. */
  ghost predicate EdgesOf(all: seq<Obj>, edges: Edges)
    reads (set x | x in all)`content
  {
    edges.Keys == (set o | o in all) && forall o | o in all :: edges[o] == Kids(o.content)
  }

  /** The objects along a chain are reachable. */
  lemma {:induction false} LeadsReaches(all: seq<Obj>, roots: seq<Obj>, path: seq<nat>, o: Obj, edges: Edges)
    requires EdgesOf(all, edges) && Closed(edges, roots) && Leads(all, roots, path, o)
    ensures Reachable(edges, roots, o)
    decreases |path|
  {
    hide Kids, Refers, Reachable;
    var last := |path| - 1;
    if last == 0 {
      RootReachable(edges, roots, o);
    } else {
      var from := all[path[last - 1]];
      LeadsReaches(all, roots, path[..last], from, edges);
      KidsAre(from.content, o);
      KidReachable(edges, roots, from, o);
    }
  }

  lemma {:induction false} WithinChained(all: seq<Obj>, roots: seq<Obj>, o: Obj, edges: Edges, n: nat) returns (path: seq<nat>)
    requires EdgesOf(all, edges) && o in Within(edges, roots, n)
    ensures Leads(all, roots, path, o)
    decreases n
  {
    hide Kids, Refers;
    if n > 0 && o in Within(edges, roots, n - 1) {
      path := WithinChained(all, roots, o, edges, n - 1);
      return;
    }
    assert o in edges;
    var place :| 0 <= place < |all| && all[place] == o;
    if n == 0 {
      path := [place];
    } else {
      var from :| from in Within(edges, roots, n - 1) && from in edges && o in edges[from];
      var front := WithinChained(all, roots, from, edges, n - 1);
      KidsAre(from.content, o);
      path := front + [place];
    }
  }

  /** The collector reaches exactly what is in use. */
  lemma ReachableInUse(all: seq<Obj>, roots: seq<Obj>, o: Obj, edges: Edges)
    requires EdgesOf(all, edges) && Closed(edges, roots)
    ensures Reachable(edges, roots, o) <==> InUse(all, roots, o)
  {
    hide Kids, Leads;
    if Reachable(edges, roots, o) {
      var n: nat :| o in Within(edges, roots, n);
      var path := WithinChained(all, roots, o, edges, n);
    }
    if InUse(all, roots, o) {
      var path :| Leads(all, roots, path, o);
      LeadsReaches(all, roots, path, o, edges);
    }
  }
}
