/** The array operations as they shift elements in place and walk up the chain of views. */
module ArrayStore {
  import opened Values
  import opened ArrayViews

  class Arrays {
    var heap: Heap

    constructor ()
      ensures Sound(heap) && heap == []
    {
      heap := [];
    }

    /** slp_obj_array_new. */
    method New() returns (id: nat)
      requires Sound(heap)
      modifies this
      ensures Sound(heap) && id == |old(heap)| && heap == old(heap) + [Arr([], 0, 0, None, 0, 0, false)]
    {
      id := |heap|;
      heap := heap + [Arr([], 0, 0, None, 0, 0, false)];
      AppendSound(old(heap), heap[id]);
    }

    /** `&sublist`: negative bounds count from the end, an end behind it is cut, and there
        is no view when the bounds do not describe a stretch of the array. */
    method Sublist(source: nat, first: int, last: Option<int>) returns (id: Option<nat>)
      requires Sound(heap) && source < |heap|
      modifies this
      ensures Sound(heap)
      ensures var count := old(heap)[source].count;
              var start := if first < 0 then count + first else first;
              var stop := if last.None? || last.value > count then count as int
                          else if last.value < 0 then count + last.value else last.value;
              if !(0 <= start <= stop) then id == None && heap == old(heap)
              else
                && id == Some(|old(heap)|) && |heap| == |old(heap)| + 1 && heap[..|old(heap)|] == old(heap)
                && IsValid(heap, id.value) && heap[id.value].source == Some(source) && heap[id.value].offset == start
                && Live(heap[id.value]) == Live(old(heap)[source])[start..stop]
    {
      hide Sound, Matches, IsValid;
      SoundShaped(heap);
      var s := heap[source];
      var bounds := Bounds(s.count, first, last);
      if bounds.None? {
        return None;
      }
      var (start, end) := bounds.value;
      var view := Copy(source, start, end);
      heap := heap[view := heap[view].(source := Some(source), offset := start, sourceVersion := s.version)];
      assert heap == old(heap) + [heap[view]];
      Linked(old(heap), heap[view]);
      id := Some(view);
    }

    /** A new array, to which the elements are pushed one after the other. */
    method Copy(source: nat, start: nat, end: nat) returns (id: nat)
      requires Sound(heap) && source < |heap| && start <= end <= heap[source].count
      modifies this
      ensures Sound(heap) && Shaped(heap) && id == |old(heap)| && |heap| == id + 1 && heap[..id] == old(heap)
      ensures heap[id].source.None? && !heap[id].invalid && Live(heap[id]) == Live(heap[source])[start..end]
    {
      hide Insert, Changed, Inserted, Sound, Grown;
      SoundShaped(heap);
      ghost var s := Live(heap[source]);
      id := New();
      for i := start to end
        invariant |heap| == id + 1 && heap[..id] == old(heap) && Sound(heap) && Shaped(heap)
        invariant heap[id].source.None? && !heap[id].invalid && Live(heap[id]) == s[start..i]
      {
        var v := heap[source].elements[i];
        assert heap[source] == heap[..id][source];
        PushedRoot(heap, id, v);
        InsertInternal(id, heap[id].count, v, false);
        assert s[start..i + 1] == s[start..i] + [v];
      }
      assert heap[source] == heap[..id][source];
    }

    /** array_insert_internal. */
    method InsertInternal(id: nat, index: int, v: Value, fromChild: bool)
      requires Shaped(heap) && id < |heap|
      modifies this
      ensures heap == Insert(old(heap), id, index, v, fromChild)
      decreases id, 0
    {
      hide Changed, Insert, Inserted, Grown, InsertOwn, Live;
      var a := heap[id];
      InsertOwnIs(a, index, v, fromChild);
      var i := Clamp(index, a.count);
      var es := ShiftUp(Grown(a.elements, a.count + 1), a.count, i, v);
      heap := heap[id := a.(elements := es, count := a.count + 1, version := a.version + 1,
                            invalid := a.invalid || (fromChild && a.source.Some?))];
      InsertUnfold(old(heap), id, index, v, fromChild);
      if a.source.Some? {
        var s := a.source.value;
        InsertInternal(s, a.offset + i, v, true);
        if !fromChild {
          heap := heap[id := heap[id].(sourceVersion := heap[s].version)];
        }
      }
    }

    /** array_remove_internal. */
    method RemoveInternal(id: nat, index: int, fromChild: bool) returns (result: Value)
      requires Shaped(heap) && id < |heap|
      modifies this
      ensures heap == Remove(old(heap), id, index, fromChild)
      ensures result == if 0 <= index < old(heap)[id].count then Live(old(heap)[id])[index] else Null
      decreases id
    {
      hide Changed, Remove, Removed, RemoveOwn, Live;
      OutOfRange(heap, id, index, fromChild);
      var a := heap[id];
      RemoveOwnIs(a, index, fromChild);
      if index < 0 || index >= a.count {
        return Null;
      }
      result := a.elements[index];
      var es := ShiftDown(a.elements, a.count, index);
      heap := heap[id := a.(elements := es, count := a.count - 1, version := a.version + 1,
                            invalid := a.invalid || (fromChild && a.source.Some?))];
      RemoveUnfold(old(heap), id, index, fromChild);
      if a.source.Some? {
        var s := a.source.value;
        var moved := RemoveInternal(s, a.offset + index, true);
        if !fromChild {
          heap := heap[id := heap[id].(sourceVersion := heap[s].version)];
        }
      }
    }

    /** array_set_internal. */
    method SetInternal(id: nat, index: int, v: Value, fromChild: bool)
      requires Shaped(heap) && id < |heap|
      modifies this
      ensures heap == Set(old(heap), id, index, v, fromChild)
      decreases id, 1
    {
      hide Changed, Insert, InsertNulls, Set, SetOwn;
      var a := heap[id];
      NegativeSet(heap, id, index, v, fromChild);
      if index < 0 {
        return;
      }
      heap := heap[id := SetOwn(a, index, v, fromChild)];
      SetUnfold(old(heap), id, index, v, fromChild);
      if a.source.Some? {
        var s := a.source.value;
        SetSource(s, a.offset, a.count, index, v);
        if !fromChild {
          heap := heap[id := heap[id].(sourceVersion := heap[s].version)];
        }
      }
    }

    /** The part of a set that updates the source of a view with `count` elements. */
    method SetSource(s: nat, offset: nat, count: nat, index: nat, v: Value)
      requires Shaped(heap) && s < |heap|
      modifies this
      ensures heap == if index < count then Set(old(heap), s, offset + index, v, true)
                      else Insert(InsertNulls(old(heap), s, offset + count, index - count), s, offset + index, v, true)
      decreases s, 2
    {
      hide Set, Insert, InsertNulls, Changed;
      if index < count {
        SetInternal(s, offset + index, v, true);
      } else {
        FillGap(s, offset + count, index - count);
        InsertInternal(s, offset + index, v, true);
      }
    }

    /** Nulls for the positions a set skipped. */
    method FillGap(id: nat, from: nat, n: nat)
      requires Shaped(heap) && id < |heap|
      modifies this
      ensures heap == InsertNulls(old(heap), id, from, n)
      decreases id, 1
    {
      hide Insert, Changed;
      NoNulls(heap, id, from);
      for i := 0 to n
        invariant |heap| == |old(heap)| && heap == InsertNulls(old(heap), id, from, i)
      {
        NullsStep(old(heap), id, from, i);
        InsertInternal(id, from + i, Null, true);
      }
    }

    /** slp_obj_array_push on a root or a valid view. */
    method Push(id: nat, v: Value)
      requires Sound(heap) && id < |heap| && IsValid(heap, id)
      modifies this
      ensures Sound(heap) && |heap| == |old(heap)| && IsValid(heap, id) && Live(heap[id]) == Live(old(heap)[id]) + [v]
    {
      hide Insert, Changed;
      InsertSound(heap, id, heap[id].count, v);
      InsertInternal(id, heap[id].count, v, false);
      KeepsFlag(old(heap), heap, id);
      if heap[id].source.None? { RootValid(heap, id); }
    }
  }

  /** The stretch of an array of `count` elements that `&sublist` is asked for. */
  function Bounds(count: nat, first: int, last: Option<int>): (r: Option<(nat, nat)>)
    ensures r.Some? ==> r.value.0 <= r.value.1 <= count
  {
    var start := if first < 0 then first + count else first;
    var asked := if last.None? then count as int else if last.value < 0 then last.value + count else last.value;
    var end := if asked > count then count as int else asked;
    if start > end || start < 0 || end < 0 then None else Some((start, end))
  }

  /** A bound from the end is the bound counted from the front, one behind the end is the end. */
  lemma BoundsFromEnd(count: nat, first: nat, last: nat)
    requires 0 < first <= count && 0 < last <= count
    ensures Bounds(count, 0 - first, None) == Some((count - first, count))
    ensures Bounds(count, 0, Some(0 - last)) == Some((0, count - last))
    ensures Bounds(count, 0, Some(count + last)) == Bounds(count, 0, None) == Some((0, count))
    ensures Bounds(count, 0 - count - first, None) == None && Bounds(count, 0, Some(0 - count - last)) == None
    ensures last < first ==> Bounds(count, first, Some(last)) == None
    ensures first <= last ==> Bounds(count, first, Some(last)) == Some((first, last))
  {
  }

  /** Makes room at `i`: the elements behind move up by one, from the last on. */
  method ShiftUp(elements: seq<Value>, count: nat, i: nat, v: Value) returns (es: seq<Value>)
    requires i <= count < |elements|
    ensures es == elements[..i] + [v] + elements[i..count] + elements[count + 1..]
  {
    es := elements;
    for k := count downto i
      invariant |es| == |elements| && es[..k + 1] == elements[..k + 1]
      invariant forall j | k < j <= count :: es[j] == elements[j - 1]
      invariant es[count + 1..] == elements[count + 1..]
    {
      assert es[k] == es[..k + 2][k] == elements[k];
      es := es[k + 1 := es[k]];
    }
    es := es[i := v];
    assert es[..i] == elements[..i];
    assert es[i + 1..count + 1] == elements[i..count];
    assert es == es[..i] + [es[i]] + es[i + 1..count + 1] + es[count + 1..];
  }

  /** Closes the gap at `i`; the last element stays in its slot. */
  method ShiftDown(elements: seq<Value>, count: nat, i: nat) returns (es: seq<Value>)
    requires i < count <= |elements|
    ensures es == elements[..i] + elements[i + 1..count] + elements[count - 1..]
  {
    es := elements;
    for k := i + 1 to count
      invariant |es| == |elements| && es[..i] == elements[..i]
      invariant forall j | i <= j < k - 1 :: es[j] == elements[j + 1]
      invariant es[k - 1..] == elements[k - 1..]
    {
      assert es[k] == es[k - 1..][1] == elements[k];
      es := es[k - 1 := es[k]];
    }
    assert es[i..count - 1] == elements[i + 1..count];
    assert es == es[..i] + es[i..count - 1] + es[count - 1..];
  }

  lemma SoundShaped(h: Heap)
    requires Sound(h)
    ensures Shaped(h)
  {
  }

  lemma PushedRoot(h: Heap, id: nat, v: Value)
    requires Sound(h) && id < |h| && h[id].source.None?
    ensures var r := Insert(h, id, h[id].count, v, false);
            && Sound(r) && |r| == |h| && r == h[id := r[id]] && r[id].source.None? && r[id].invalid == h[id].invalid
            && Live(r[id]) == Live(h[id]) + [v]
  {
    InsertSound(h, id, h[id].count, v);
    InsertUnfold(h, id, h[id].count, v, false);
    hide Insert;
  }

  lemma Linked(h: Heap, a: Arr)
    requires Sound(h) && a.count <= |a.elements| && !a.invalid && a.source.Some? && a.source.value < |h|
    requires var s := h[a.source.value];
             && s.count <= |s.elements| && a.sourceVersion == s.version && a.offset + a.count <= s.count
             && Live(a) == Live(s)[a.offset..a.offset + a.count]
    ensures Sound(h + [a]) && IsValid(h + [a], |h|)
  {
    AppendSound(h, a);
  }

  lemma InsertOwnIs(a: Arr, index: int, v: Value, fromChild: bool)
    requires a.count <= |a.elements|
    ensures var i, es := Clamp(index, a.count), Grown(a.elements, a.count + 1);
            InsertOwn(a, index, v, fromChild) ==
            a.(elements := es[..i] + [v] + es[i..a.count] + es[a.count + 1..], count := a.count + 1,
               version := a.version + 1, invalid := a.invalid || (fromChild && a.source.Some?))
  {
  }

  lemma RemoveOwnIs(a: Arr, index: int, fromChild: bool)
    requires a.count <= |a.elements|
    ensures 0 <= index < a.count ==>
              && RemoveOwn(a, index, fromChild) ==
                 a.(elements := a.elements[..index] + a.elements[index + 1..a.count] + a.elements[a.count - 1..],
                    count := a.count - 1, version := a.version + 1, invalid := a.invalid || (fromChild && a.source.Some?))
              && Live(a)[index] == a.elements[index]
  {
  }

  lemma NegativeSet(h: Heap, id: nat, index: int, v: Value, fromChild: bool)
    requires Shaped(h) && id < |h|
    ensures index < 0 ==> Set(h, id, index, v, fromChild) == h
  {
  }

  lemma RootValid(h: Heap, id: nat)
    requires Shaped(h) && id < |h| && h[id].source.None?
    ensures IsValid(h, id)
  {
  }

  /** A new array at the end of the heap, equal to its window if it is a view. */
  lemma AppendSound(h: Heap, a: Arr)
    requires Sound(h) && a.count <= |a.elements|
    requires a.source.Some? ==>
               (&& a.source.value < |h| && a.sourceVersion == h[a.source.value].version
                && a.offset + a.count <= h[a.source.value].count
                && Live(a) == Live(h[a.source.value])[a.offset..a.offset + a.count])
    ensures Sound(h + [a])
  {
    var r := h + [a];
    forall w | 0 <= w < |r| && r[w].source.Some? && IsValid(r, w) ensures Matches(r, w) {
      if w < |h| {
        assert IsValid(h, w);
        assert Matches(h, w);
      }
    }
  }

  lemma NullsStep(h: Heap, id: nat, from: nat, n: nat)
    requires Shaped(h) && id < |h|
    ensures InsertNulls(h, id, from, n + 1) == Insert(InsertNulls(h, id, from, n), id, from + n, Null, true)
  {
    hide Insert;
  }
}
