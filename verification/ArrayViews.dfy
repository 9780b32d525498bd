/** Arrays and the views `&sublist` makes of them. An array is known by its number; a view
    has a higher number than its source. */
module ArrayViews {
  import opened Values

  /** `elements` is the allocated store; the first `count` of them are the array. */
  datatype Arr = Arr(elements: seq<Value>, count: nat, version: nat,
                     source: Option<nat>, offset: nat, sourceVersion: nat, invalid: bool)

  type Heap = seq<Arr>

  function Live(a: Arr): seq<Value>
    requires a.count <= |a.elements|
  {
    a.elements[..a.count]
  }

  predicate Shaped(h: Heap) {
    forall w | 0 <= w < |h| ::
      && h[w].count <= |h[w].elements|
      && (h[w].source.Some? ==> h[w].source.value < w && h[w].sourceVersion <= h[h[w].source.value].version)
  }

  /** slp_obj_array_view_is_valid. */
  predicate IsValid(h: Heap, w: nat)
    requires Shaped(h) && w < |h|
  {
    h[w].source.None? || (!h[w].invalid && h[w].sourceVersion == h[h[w].source.value].version)
  }

  /** The view equals its window of the source. */
  predicate Matches(h: Heap, w: nat)
    requires Shaped(h) && w < |h| && h[w].source.Some?
  {
    var s := h[h[w].source.value];
    && h[w].offset + h[w].count <= s.count
    && Live(h[w]) == Live(s)[h[w].offset..h[w].offset + h[w].count]
  }

  /** Every valid view equals its window of its direct source. */
  predicate Sound(h: Heap) {
    Shaped(h) && forall w | 0 <= w < |h| && h[w].source.Some? && IsValid(h, w) :: Matches(h, w)
  }

  // ----- one array -----

  function Nulls(n: nat): seq<Value> { seq(n, _ => Null) }

  function GrownSize(size: nat, needed: nat): (r: nat)
    requires size > 0
    ensures r >= needed && r >= size
    decreases needed - size
  {
    if size >= needed then size else GrownSize(2 * size, needed)
  }

  /** ensure_array_capacity. */
  function Grown(es: seq<Value>, needed: nat): (r: seq<Value>)
    ensures |r| >= needed && es <= r
    ensures forall i | |es| <= i < |r| :: r[i] == Null
  {
    if needed <= |es| then es
    else es + Nulls(GrownSize(if es == [] then 8 else 2 * |es|, needed) - |es|)
  }

  function Clamp(index: int, count: nat): nat {
    if index < 0 then 0 else if index > count then count else index
  }

  function Inserted(s: seq<Value>, i: nat, v: Value): seq<Value>
    requires i <= |s|
  {
    s[..i] + [v] + s[i..]
  }

  function Removed(s: seq<Value>, i: nat): seq<Value>
    requires i < |s|
  {
    s[..i] + s[i + 1..]
  }

  /** A change made through a child view spoils a view for good. */
  function Touched(a: Arr, elements: seq<Value>, count: nat, fromChild: bool): Arr {
    a.(elements := elements, count := count, version := a.version + 1,
       invalid := a.invalid || (fromChild && a.source.Some?))
  }

  function InsertOwn(a: Arr, index: int, v: Value, fromChild: bool): (r: Arr)
    requires a.count <= |a.elements|
    ensures r.count == a.count + 1 <= |r.elements| && Live(r) == Inserted(Live(a), Clamp(index, a.count), v)
  {
    var i, es := Clamp(index, a.count), Grown(a.elements, a.count + 1);
    var r := Touched(a, es[..i] + [v] + es[i..a.count] + es[a.count + 1..], a.count + 1, fromChild);
    assert Live(r) == Inserted(Live(a), i, v);
    r
  }

  function RemoveOwn(a: Arr, index: nat, fromChild: bool): (r: Arr)
    requires a.count <= |a.elements| && index < a.count
    ensures r.count == a.count - 1 <= |r.elements| && Live(r) == Removed(Live(a), index)
  {
    // the last slot keeps its old value
    var es := a.elements;
    var r := Touched(a, es[..index] + es[index + 1..a.count] + es[a.count - 1..], a.count - 1, fromChild);
    assert Live(r) == Removed(Live(a), index);
    r
  }

  /** Whatever the store holds between the old end and `index` becomes part of the array. */
  function SetOwn(a: Arr, index: nat, v: Value, fromChild: bool): (r: Arr)
    requires a.count <= |a.elements|
    ensures r.count <= |r.elements|
  {
    Touched(a, Grown(a.elements, index + 1)[index := v], if index >= a.count then index + 1 else a.count, fromChild)
  }

  // ----- the whole heap -----

  function Synced(h: Heap, id: nat, fromChild: bool): Heap
    requires id < |h| && h[id].source.Some? && h[id].source.value < |h|
  {
    if fromChild then h else h[id := h[id].(sourceVersion := h[h[id].source.value].version)]
  }

  /** array_insert_internal. */
  function Insert(h: Heap, id: nat, index: int, v: Value, fromChild: bool): (r: Heap)
    requires Shaped(h) && id < |h|
    ensures |r| == |h| && Changed(h, r, id, fromChild) && Shaped(r)
    ensures r[id].version > h[id].version && r[id].count == h[id].count + 1
    ensures Live(r[id]) == Inserted(Live(h[id]), Clamp(index, h[id].count), v)
    decreases id
  {
    var a := h[id];
    var own := h[id := InsertOwn(a, index, v, fromChild)];
    OwnShaped(h, id, own[id]);
    if a.source.None? then own
    else
      var up := Insert(own, a.source.value, a.offset + Clamp(index, a.count), v, true);
      SyncedChange(h, own, up, id, fromChild);
      Synced(up, id, fromChild)
  }

  /** array_remove_internal. */
  function Remove(h: Heap, id: nat, index: int, fromChild: bool): (r: Heap)
    requires Shaped(h) && id < |h|
    ensures |r| == |h| && Changed(h, r, id, fromChild) && Shaped(r)
    ensures if 0 <= index < h[id].count then r[id].version > h[id].version && Live(r[id]) == Removed(Live(h[id]), index)
            else r == h
    decreases id
  {
    var a := h[id];
    if !(0 <= index < a.count) then
      UnchangedIsChange(h, id, fromChild);
      h
    else
      var own := h[id := RemoveOwn(a, index, fromChild)];
      OwnShaped(h, id, own[id]);
      if a.source.None? then own
      else
        var up := Remove(own, a.source.value, a.offset + index, true);
        SyncedChange(h, own, up, id, fromChild);
        Synced(up, id, fromChild)
  }

  /** Nulls for the positions a set skips. */
  function InsertNulls(h: Heap, id: nat, from: nat, n: nat): (r: Heap)
    requires Shaped(h) && id < |h|
    ensures |r| == |h| && Shaped(r) && Changed(h, r, id, true)
    decreases n
  {
    if n == 0 then
      UnchangedIsChange(h, id, true);
      h
    else
      var r := InsertNulls(h, id, from, n - 1);
      var t := Insert(r, id, from + n - 1, Null, true);
      ChangeTwice(h, r, t, id);
      t
  }

  /** array_set_internal. */
  function Set(h: Heap, id: nat, index: int, v: Value, fromChild: bool): (r: Heap)
    requires Shaped(h) && id < |h|
    ensures |r| == |h| && Changed(h, r, id, fromChild) && Shaped(r)
    ensures index < 0 ==> r == h
    ensures index >= 0 ==> r[id].version > h[id].version && r[id].count == SetOwn(h[id], index, v, fromChild).count
                           && Live(r[id]) == Live(SetOwn(h[id], index, v, fromChild))
    decreases id
  {
    var a := h[id];
    if index < 0 then
      UnchangedIsChange(h, id, fromChild);
      h
    else
      var own := h[id := SetOwn(a, index, v, fromChild)];
      OwnShaped(h, id, own[id]);
      if a.source.None? then own
      else
        var s := a.source.value;
        if index < a.count then
          var up := Set(own, s, a.offset + index, v, true);
          SyncedChange(h, own, up, id, fromChild);
          Synced(up, id, fromChild)
        else
          var gap := InsertNulls(own, s, a.offset + a.count, index - a.count);
          var up := Insert(gap, s, a.offset + index, v, true);
          ChangeTwice(own, gap, up, s);
          SyncedChange(h, own, up, id, fromChild);
          Synced(up, id, fromChild)
  }

  // ----- what an operation leaves alone -----

  /** Array `w` is as it was, or it has a new version and, being a view, is spoilt. */
  predicate Kept(a: Arr, b: Arr) {
    b == a || (b.version > a.version && b.source == a.source && b.offset == a.offset
               && b.sourceVersion == a.sourceVersion && (a.source.Some? ==> b.invalid))
  }

  /** An operation on `id` touches `id` and arrays below it in the chain of sources. */
  predicate Changed(h: Heap, r: Heap, id: nat, fromChild: bool)
    requires id < |h|
  {
    && |r| == |h|
    && (forall w | id < w < |h| :: r[w] == h[w])
    && (forall w | 0 <= w < id :: Kept(h[w], r[w]))
    && (fromChild ==> Kept(h[id], r[id]))
    && (!fromChild ==>
          && r[id].source == h[id].source && r[id].offset == h[id].offset && r[id].invalid == h[id].invalid
          && (r[id] == h[id] ||
              (r[id].version > h[id].version
               && (h[id].source.Some? && h[id].source.value < |r| ==> r[id].sourceVersion == r[h[id].source.value].version))))
  }

  lemma UnchangedIsChange(h: Heap, id: nat, fromChild: bool)
    requires id < |h|
    ensures Changed(h, h, id, fromChild)
  {
  }

  lemma ChangeTwice(h: Heap, r: Heap, t: Heap, id: nat)
    requires id < |h| && Changed(h, r, id, true) && |r| == |h| && Changed(r, t, id, true)
    ensures Changed(h, t, id, true)
  {
  }

  lemma OwnShaped(h: Heap, id: nat, b: Arr)
    requires Shaped(h) && id < |h| && b.count <= |b.elements| && b.version >= h[id].version
    requires b.source == h[id].source && b.sourceVersion == h[id].sourceVersion
    ensures Shaped(h[id := b])
  {
  }

  /** The array itself, then its source, then the noted version. */
  lemma SyncedChange(h: Heap, own: Heap, up: Heap, id: nat, fromChild: bool)
    requires Shaped(h) && id < |h| && h[id].source.Some? && |own| == |h| && own == h[id := own[id]] && Shaped(up)
    requires own[id].version > h[id].version && own[id].source == h[id].source && own[id].offset == h[id].offset
    requires own[id].sourceVersion == h[id].sourceVersion && own[id].invalid == (h[id].invalid || fromChild)
    requires Changed(own, up, h[id].source.value, true)
    ensures up[id] == own[id]
    ensures var r := Synced(up, id, fromChild); Changed(h, r, id, fromChild) && Shaped(r)
  {
  }

  // ----- elements -----

  /** What an insertion does to the array: an index below 0 counts as the front, one behind
      the end as the end; elements in front stay and those behind move up by one. */
  lemma InsertElements(h: Heap, id: nat, index: int, v: Value, fromChild: bool)
    requires Shaped(h) && id < |h|
    ensures var s, t := Live(h[id]), Live(Insert(h, id, index, v, fromChild)[id]);
            var i := if index <= 0 then 0 else if index >= |s| then |s| as int else index;
            && |t| == |s| + 1 && t[i] == v
            && (forall k | 0 <= k < i :: t[k] == s[k]) && (forall k | i <= k < |s| :: t[k + 1] == s[k])
  {
    hide Insert, Changed;
  }

  /** What a removal does to it: the elements behind move down by one. */
  lemma RemoveElements(h: Heap, id: nat, index: nat, fromChild: bool)
    requires Shaped(h) && id < |h| && index < h[id].count
    ensures var s, t := Live(h[id]), Live(Remove(h, id, index, fromChild)[id]);
            && |t| == |s| - 1 && (forall k | 0 <= k < index :: t[k] == s[k]) && (forall k | index < k < |s| :: t[k - 1] == s[k])
  {
    hide Remove, Changed;
  }

  /** What setting an element does to it: no other element changes, and an index behind the
      end becomes the last one. */
  lemma SetElements(h: Heap, id: nat, index: nat, v: Value, fromChild: bool)
    requires Shaped(h) && id < |h|
    ensures var s, t := Live(h[id]), Live(Set(h, id, index, v, fromChild)[id]);
            && |t| == (if index < |s| then |s| else index + 1) && t[index] == v
            && (forall k | 0 <= k < |s| && k != index :: t[k] == s[k])
  {
    hide Set, Changed, SetOwn;
    SetOwnLive(h[id], index, v, fromChild);
  }

  // ----- windows -----

  lemma InsertedWindow(s: seq<Value>, t: seq<Value>, off: nat, i: nat, v: Value)
    requires i <= |s|
    ensures off + |s| <= |t| ==>
              (Inserted(s, i, v) == Inserted(t, off + i, v)[off..off + |s| + 1] <==> s == t[off..off + |s|])
  {
    if off + |s| <= |t| {
      var a, b := Inserted(s, i, v), Inserted(t, off + i, v)[off..off + |s| + 1];
      if s == t[off..off + |s|] {
        forall k | 0 <= k <= |s| ensures a[k] == b[k] {
          assert k < i ==> s[k] == t[off + k];
          assert k > i ==> s[k - 1] == t[off + (k - 1)];
        }
      }
      if a == b {
        forall k | 0 <= k < |s| ensures s[k] == t[off + k] {
          assert a[if k < i then k else k + 1] == b[if k < i then k else k + 1];
        }
      }
    }
  }

  /** `s` and the window of `t` at `off` are the same but for position `i`, and the window
      may miss its last element if that is position `i`. */
  predicate Agree(s: seq<Value>, t: seq<Value>, off: nat, i: nat)
    requires i < |s|
  {
    && (off + |s| <= |t| || (i == |s| - 1 && off + i == |t|))
    && (forall k | 0 <= k < |s| && k != i :: s[k] == t[off + k])
  }

  lemma RemovedAt(s: seq<Value>, i: nat)
    requires i < |s|
    ensures |Removed(s, i)| == |s| - 1
    ensures forall j | 0 <= j < |s| - 1 :: Removed(s, i)[j] == s[if j < i then j else j + 1]
  {
  }

  lemma RemovedWindow(s: seq<Value>, t: seq<Value>, off: nat, i: nat)
    requires i < |s|
    ensures var u := if off + i < |t| then Removed(t, off + i) else t;
            (off + |s| - 1 <= |u| && Removed(s, i) == u[off..off + |s| - 1]) <==> Agree(s, t, off, i)
  {
    hide Removed;
    RemovedAt(s, i);
    if off + i < |t| { RemovedAt(t, off + i); }
    var a, u := Removed(s, i), if off + i < |t| then Removed(t, off + i) else t;
    if off + |s| - 1 <= |u| {
      if a == u[off..off + |s| - 1] {
        forall k | 0 <= k < |s| && k != i ensures s[k] == t[off + k] {
          var j := if k < i then k else k - 1;
          assert a[j] == u[off..off + |s| - 1][j] == u[off + j];
        }
      }
      if Agree(s, t, off, i) {
        forall j | 0 <= j < |s| - 1 ensures a[j] == u[off + j] {
          var k := if j < i then j else j + 1;
          assert s[k] == t[off + k];
        }
      }
    }
  }

  // ----- the heap stays sound -----

  /** What is left to check after an operation on `id`: the window of `id` itself. Views of
      a changed array are stale, and changed views further down are spoilt. */
  lemma OnlyOwnWindow(h: Heap, r: Heap, id: nat)
    requires Sound(h) && id < |h| && Changed(h, r, id, false) && Shaped(r)
    requires r[id] == h[id] ==> r == h
    ensures Sound(r) <==> (r == h || r[id].source.None? || r[id].invalid || Matches(r, id))
  {
    if r != h {
      forall w | 0 <= w < |r| && w != id && r[w].source.Some? && IsValid(r, w) ensures Matches(r, w) {
        var s := r[w].source.value;
        assert r[w] == h[w];
        assert r[s] == h[s];
        assert IsValid(h, w);
      }
    }
  }

  /** Inserting keeps the heap sound exactly when the array is a root, is spoilt already,
      or equals its window: in particular on every valid view. A stale view that does not
      match would count as valid afterwards. */
  lemma InsertSound(h: Heap, id: nat, index: int, v: Value)
    requires Sound(h) && id < |h|
    ensures Sound(Insert(h, id, index, v, false)) <==> (h[id].source.None? || h[id].invalid || Matches(h, id))
    ensures h[id].source.Some? && !h[id].invalid ==> IsValid(Insert(h, id, index, v, false), id)
  {
    hide Insert, Changed, Inserted, Matches, Live;
    var r := Insert(h, id, index, v, false);
    OnlyOwnWindow(h, r, id);
    KeepsFlag(h, r, id);
    if h[id].source.Some? {
      InsertParts(h, id, index, v);
      InsertedMatches(h, r, id, Clamp(index, h[id].count), v);
    }
  }

  /** The operation keeps source and flag of the array itself, and notes the new version. */
  lemma KeepsFlag(h: Heap, r: Heap, id: nat)
    requires Shaped(h) && Shaped(r) && id < |h| && Changed(h, r, id, false)
    ensures |r| == |h| && r[id].source == h[id].source && r[id].invalid == h[id].invalid
    ensures r[id].version > h[id].version && h[id].source.Some? && !h[id].invalid ==> IsValid(r, id)
  {
  }

  lemma InsertedMatches(h: Heap, r: Heap, id: nat, i: nat, v: Value)
    requires Shaped(h) && Shaped(r) && |r| == |h| && id < |h| && h[id].source.Some? && i <= h[id].count
    requires r[id].source == h[id].source && r[id].offset == h[id].offset
    requires r[id].count == h[id].count + 1 && Live(r[id]) == Inserted(Live(h[id]), i, v)
    requires var s := h[id].source.value;
             r[s].count == h[s].count + 1 && Live(r[s]) == Inserted(Live(h[s]), Clamp(h[id].offset + i, h[s].count), v)
    ensures Matches(r, id) <==> Matches(h, id)
  {
    hide Inserted;
    InsertedWindow(Live(h[id]), Live(h[h[id].source.value]), h[id].offset, i, v);
  }

  lemma InsertParts(h: Heap, id: nat, index: int, v: Value)
    requires Shaped(h) && id < |h| && h[id].source.Some?
    ensures var r := Insert(h, id, index, v, false);
            var s, i := h[id].source.value, h[id].offset + Clamp(index, h[id].count);
            && |r| == |h| && r[id].count == h[id].count + 1 && Live(r[id]) == Inserted(Live(h[id]), Clamp(index, h[id].count), v)
            && r[s].count == h[s].count + 1 && Live(r[s]) == Inserted(Live(h[s]), Clamp(i, h[s].count), v)
            && r[id].source == h[id].source && r[id].offset == h[id].offset
  {
  }

  /** Removing keeps the heap sound exactly when the array is a root, is spoilt already, or
      differs from its window at most in the element that goes. */
  lemma RemoveSound(h: Heap, id: nat, index: int)
    requires Sound(h) && id < |h|
    ensures Sound(Remove(h, id, index, false)) <==>
            (!(0 <= index < h[id].count) || h[id].source.None? || h[id].invalid
             || Agree(Live(h[id]), Live(h[h[id].source.value]), h[id].offset, index))
    ensures 0 <= index < h[id].count && h[id].source.Some? && !h[id].invalid ==> IsValid(Remove(h, id, index, false), id)
  {
    hide Remove, Changed, Removed, Matches, Live, Agree;
    var r := Remove(h, id, index, false);
    OnlyOwnWindow(h, r, id);
    KeepsFlag(h, r, id);
    if 0 <= index < h[id].count && h[id].source.Some? {
      RemoveParts(h, id, index);
      RemovedMatches(h, r, id, index);
    }
  }

  /** A view that equals its window differs from it nowhere. */
  lemma MatchesAgrees(h: Heap, id: nat, index: nat)
    requires Shaped(h) && id < |h| && h[id].source.Some? && Matches(h, id) && index < h[id].count
    ensures Agree(Live(h[id]), Live(h[h[id].source.value]), h[id].offset, index)
  {
    var t := Live(h[h[id].source.value]);
    var w := t[h[id].offset..h[id].offset + h[id].count];
    assert forall k | 0 <= k < |w| :: w[k] == t[h[id].offset + k];
  }

  lemma RemovedMatches(h: Heap, r: Heap, id: nat, i: nat)
    requires Shaped(h) && Shaped(r) && |r| == |h| && id < |h| && h[id].source.Some? && i < h[id].count
    requires r[id].source == h[id].source && r[id].offset == h[id].offset
    requires r[id].count == h[id].count - 1 && Live(r[id]) == Removed(Live(h[id]), i)
    requires var s := h[id].source.value;
             if h[id].offset + i < h[s].count then
               r[s].count == h[s].count - 1 && Live(r[s]) == Removed(Live(h[s]), h[id].offset + i)
             else r[s] == h[s]
    ensures Matches(r, id) <==> Agree(Live(h[id]), Live(h[h[id].source.value]), h[id].offset, i)
  {
    hide Removed, Agree;
    RemovedWindow(Live(h[id]), Live(h[h[id].source.value]), h[id].offset, i);
  }

  lemma RemoveParts(h: Heap, id: nat, index: nat)
    requires Shaped(h) && id < |h| && h[id].source.Some? && index < h[id].count
    ensures var r := Remove(h, id, index, false);
            var s, i := h[id].source.value, h[id].offset + index;
            && |r| == |h| && r[id].count == h[id].count - 1 && Live(r[id]) == Removed(Live(h[id]), index)
            && (if i < h[s].count then r[s].count == h[s].count - 1 && Live(r[s]) == Removed(Live(h[s]), i)
                else r[s] == h[s])
            && r[id].source == h[id].source && r[id].offset == h[id].offset
  {
  }

  // ----- setting an element -----

  lemma SetOwnLive(a: Arr, index: nat, v: Value, fromChild: bool)
    requires a.count <= |a.elements|
    ensures var r := SetOwn(a, index, v, fromChild);
            && (index < a.count ==> r.count == a.count && Live(r) == Live(a)[index := v])
            && (index >= a.count ==>
                  r.count == index + 1 && Live(r) == Live(a) + Grown(a.elements, index + 1)[a.count..index] + [v])
  {
    var r := SetOwn(a, index, v, fromChild);
    var es := Grown(a.elements, index + 1);
    assert es[..a.count] == Live(a);
  }

  lemma {:induction false} NullsInserted(h: Heap, id: nat, from: nat, n: nat)
    requires Shaped(h) && id < |h|
    ensures var r := InsertNulls(h, id, from, n);
            && |r| == |h| && r[id].count == h[id].count + n
            && (from <= h[id].count ==> Live(r[id]) == Live(h[id])[..from] + Nulls(n) + Live(h[id])[from..])
    decreases n
  {
    hide Insert, Changed;
    if n > 0 {
      NullsInserted(h, id, from, n - 1);
      var r := InsertNulls(h, id, from, n - 1);
      if from <= h[id].count { NextNull(Live(h[id]), Live(r[id]), from, n - 1); }
    } else if from <= h[id].count {
      assert Live(h[id]) == Live(h[id])[..from] + Nulls(0) + Live(h[id])[from..];
    }
  }

  lemma NextNull(s: seq<Value>, t: seq<Value>, from: nat, n: nat)
    requires from <= |s| && t == s[..from] + Nulls(n) + s[from..]
    ensures Inserted(t, from + n, Null) == s[..from] + Nulls(n + 1) + s[from..]
  {
  }

  /** The window after a set behind the end: the skipped positions are null in the source
      and whatever the store held in the view. */
  lemma FilledWindow(s: seq<Value>, slack: seq<Value>, t: seq<Value>, off: nat, v: Value)
    requires off + |s| <= |t|
    ensures var n := |slack|;
            var u := t[..off + |s|] + Nulls(n) + t[off + |s|..];
            var w := Inserted(u, off + |s| + n, v);
            s + slack + [v] == w[off..off + |s| + n + 1] <==> s == t[off..off + |s|] && slack == Nulls(n)
  {
    var n := |slack|;
    var u := t[..off + |s|] + Nulls(n) + t[off + |s|..];
    var w := Inserted(u, off + |s| + n, v);
    var a, b := s + slack + [v], w[off..off + |s| + n + 1];
    assert b[|s|..|s| + n] == Nulls(n) && a[|s|..|s| + n] == slack;
    assert b[..|s|] == t[off..off + |s|] && a[..|s|] == s;
    assert b[|s| + n] == v;
    assert b == b[..|s|] + b[|s|..|s| + n] + [b[|s| + n]];
  }

  /** What a set leaves in a view and its source. */
  lemma SetParts(h: Heap, id: nat, index: nat, v: Value)
    requires Shaped(h) && id < |h| && h[id].source.Some?
    ensures var r := Set(h, id, index, v, false);
            var a, s := h[id], h[id].source.value;
            && |r| == |h| && r[id].source == a.source && r[id].offset == a.offset
            && Live(r[id]) == Live(SetOwn(a, index, v, false)) && r[id].count == SetOwn(a, index, v, false).count
            && if index < a.count then
                 var t := SetOwn(h[s], a.offset + index, v, true);
                 r[s].count == t.count && Live(r[s]) == Live(t)
               else
                 var at, n := a.offset + a.count, index - a.count;
                 && r[s].count == h[s].count + n + 1
                 && (at <= h[s].count ==>
                       Live(r[s]) == Inserted(Live(h[s])[..at] + Nulls(n) + Live(h[s])[at..], at + n, v))
  {
    hide Changed, InsertNulls, Insert, Set, SetOwn, Inserted;
    var a, s := h[id], h[id].source.value;
    SetUnfold(h, id, index, v, false);
    if index >= a.count {
      NullsInserted(h[id := SetOwn(a, index, v, false)], s, a.offset + a.count, index - a.count);
    }
  }

  lemma SetUnfold(h: Heap, id: nat, index: nat, v: Value, fromChild: bool)
    requires Shaped(h) && id < |h|
    ensures var a := h[id];
            var own := h[id := SetOwn(a, index, v, fromChild)];
            && Shaped(own) && own[id].source == a.source && own[id].offset == a.offset && own[id].version > a.version
            && own[id].invalid == (a.invalid || (fromChild && a.source.Some?))
            && if a.source.None? then Set(h, id, index, v, fromChild) == own
               else
                 var s := a.source.value;
                 var up := if index < a.count then Set(own, s, a.offset + index, v, true)
                           else Insert(InsertNulls(own, s, a.offset + a.count, index - a.count), s, a.offset + index, v, true);
                 |up| == |h| && up[id] == own[id] && Set(h, id, index, v, fromChild) == Synced(up, id, fromChild)
  {
    hide Insert, InsertNulls;
    OwnShaped(h, id, SetOwn(h[id], index, v, fromChild));
  }

  /** What the store of `a` holds at a position, allocated or not. */
  function Stored(a: Arr, p: nat): Value { if p < |a.elements| then a.elements[p] else Null }

  /** But for element `index`, which is set, view `a` equals what its source `s` stores; and
      its window ends inside `s`, or with the element that is set. */
  predicate SetAgrees(a: Arr, s: Arr, index: nat)
    requires a.count <= |a.elements| && index < a.count
  {
    && (a.offset + a.count <= s.count || index == a.count - 1)
    && (forall k | 0 <= k < a.count && k != index :: a.elements[k] == Stored(s, a.offset + k))
  }

  /** Nothing but null lies between the end of the array and `index`. */
  predicate NullSlack(a: Arr, index: nat) {
    forall k | a.count <= k < index && k < |a.elements| :: a.elements[k] == Null
  }

  lemma SetStored(s: Arr, at: nat, v: Value)
    requires s.count <= |s.elements|
    ensures var t := SetOwn(s, at, v, true);
            && t.count == (if at >= s.count then at + 1 else s.count) <= |t.elements|
            && t.elements[at] == v
            && (forall p | 0 <= p < |t.elements| && p != at :: t.elements[p] == Stored(s, p))
  {
  }

  lemma SetWindow(a: Arr, s: Arr, index: nat, v: Value)
    requires a.count <= |a.elements| && s.count <= |s.elements| && index < a.count
    ensures var t := SetOwn(s, a.offset + index, v, true);
            (a.offset + a.count <= t.count && Live(a)[index := v] == Live(t)[a.offset..a.offset + a.count])
            <==> SetAgrees(a, s, index)
  {
    hide SetOwn, Stored;
    SetStored(s, a.offset + index, v);
    var t := SetOwn(s, a.offset + index, v, true);
    if a.offset + a.count <= t.count {
      var x, y := Live(a)[index := v], Live(t)[a.offset..a.offset + a.count];
      forall k | 0 <= k < a.count
        ensures x[k] == y[k] <==> (k == index || a.elements[k] == Stored(s, a.offset + k))
      {
        assert y[k] == t.elements[a.offset + k];
      }
      if x == y {
        forall k | 0 <= k < a.count && k != index ensures a.elements[k] == Stored(s, a.offset + k) {
          assert x[k] == y[k];
        }
      }
    }
  }

  /** Setting an element keeps the heap sound exactly when the array is a root, is spoilt
      already, or, for an index inside, differs from its source at most in that element,
      and, for an index behind its end, equals its window and skips nothing but nulls. */
  lemma SetSound(h: Heap, id: nat, index: int, v: Value)
    requires Sound(h) && id < |h|
    ensures Sound(Set(h, id, index, v, false)) <==>
            (index < 0 || h[id].source.None? || h[id].invalid
             || if index < h[id].count then SetAgrees(h[id], h[h[id].source.value], index)
                else Matches(h, id) && NullSlack(h[id], index))
    ensures index >= 0 && h[id].source.Some? && !h[id].invalid ==> IsValid(Set(h, id, index, v, false), id)
  {
    hide Set, Changed, SetOwn, Matches, SetAgrees, NullSlack;
    var r := Set(h, id, index, v, false);
    OnlyOwnWindow(h, r, id);
    KeepsFlag(h, r, id);
    if index >= 0 && h[id].source.Some? {
      SetParts(h, id, index, v);
      SetOwnLive(h[id], index, v, false);
      SetMatches(h, r, id, index, v);
    }
  }

  /** In particular on every valid view, for an index inside. */
  lemma MatchesSetAgrees(h: Heap, id: nat, index: nat)
    requires Shaped(h) && id < |h| && h[id].source.Some? && Matches(h, id) && index < h[id].count
    ensures SetAgrees(h[id], h[h[id].source.value], index)
  {
    var a, s := h[id], h[h[id].source.value];
    forall k | 0 <= k < a.count ensures a.elements[k] == Stored(s, a.offset + k) {
      assert Live(a)[k] == Live(s)[a.offset..a.offset + a.count][k];
    }
  }

  lemma SetMatches(h: Heap, r: Heap, id: nat, index: nat, v: Value)
    requires Shaped(h) && Shaped(r) && |r| == |h| && id < |h| && h[id].source.Some?
    requires r[id].source == h[id].source && r[id].offset == h[id].offset
    requires var a, s := h[id], h[id].source.value;
             if index < a.count then
               r[id].count == a.count && Live(r[id]) == Live(a)[index := v]
               && var t := SetOwn(h[s], a.offset + index, v, true); r[s].count == t.count && Live(r[s]) == Live(t)
             else
               r[id].count == index + 1 && Live(r[id]) == Live(a) + Grown(a.elements, index + 1)[a.count..index] + [v]
               && var at, n := a.offset + a.count, index - a.count;
                  r[s].count == h[s].count + n + 1
                  && (at <= h[s].count ==> Live(r[s]) == Inserted(Live(h[s])[..at] + Nulls(n) + Live(h[s])[at..], at + n, v))
    ensures Matches(r, id) <==>
            if index < h[id].count then SetAgrees(h[id], h[h[id].source.value], index)
            else Matches(h, id) && NullSlack(h[id], index)
  {
    hide SetAgrees, SetOwn, Inserted, NullSlack, Grown;
    var a, s := h[id], h[h[id].source.value];
    if index < a.count {
      SetWindow(a, s, index, v);
    } else {
      SlackNull(a, index);
      if a.offset + a.count <= s.count {
        FilledWindow(Live(a), Grown(a.elements, index + 1)[a.count..index], Live(s), a.offset, v);
      }
    }
  }

  lemma SlackNull(a: Arr, index: nat)
    requires a.count <= |a.elements| && index >= a.count
    ensures Grown(a.elements, index + 1)[a.count..index] == Nulls(index - a.count) <==> NullSlack(a, index)
  {
    var es := Grown(a.elements, index + 1);
    var slack := es[a.count..index];
    if slack == Nulls(index - a.count) {
      forall k | a.count <= k < index && k < |a.elements| ensures a.elements[k] == Null {
        assert es[k] == slack[k - a.count] == Null;
      }
    }
    if NullSlack(a, index) {
      forall j | 0 <= j < |slack| ensures slack[j] == Null {
        assert slack[j] == es[a.count + j];
      }
    }
  }

  // ----- which arrays an operation reaches -----

  /** `a` is `id` or a source, direct or not, of `id`. */
  predicate Above(h: Heap, a: nat, id: nat)
    requires Shaped(h) && id < |h|
    decreases id
  {
    a == id || (h[id].source.Some? && Above(h, a, h[id].source.value))
  }

  /** An insertion reaches the whole chain of sources: each gets a new version, and each
      that is itself a view is spoilt; everything else stays as it was. */
  lemma {:induction false} InsertReaches(h: Heap, id: nat, index: int, v: Value, fromChild: bool, a: nat)
    requires Shaped(h) && id < |h| && a < |h|
    ensures var r := Insert(h, id, index, v, fromChild);
            if Above(h, a, id) then
              r[a].version > h[a].version && (h[a].source.Some? && (a != id || fromChild) ==> r[a].invalid)
            else r[a] == h[a]
    decreases id
  {
    hide Changed, Insert, Inserted, Above, InsertOwn, Synced;
    var own := h[id := InsertOwn(h[id], index, v, fromChild)];
    InsertUnfold(h, id, index, v, fromChild);
    AboveUnfold(h, a, id);
    if h[id].source.Some? {
      var s, at := h[id].source.value, h[id].offset + Clamp(index, h[id].count);
      InsertReaches(own, s, at, v, true, a);
      SameAbove(h, own, a, s);
      OneUp(h, own, Insert(own, s, at, v, true), id, fromChild, a, Above(h, a, s));
    }
  }

  lemma AboveUnfold(h: Heap, a: nat, id: nat)
    requires Shaped(h) && id < |h|
    ensures Above(h, a, id) == (a == id || (h[id].source.Some? && Above(h, a, h[id].source.value)))
  {
  }

  lemma InsertUnfold(h: Heap, id: nat, index: int, v: Value, fromChild: bool)
    requires Shaped(h) && id < |h|
    ensures var own := h[id := InsertOwn(h[id], index, v, fromChild)];
            && Shaped(own) && own[id].source == h[id].source && own[id].version > h[id].version
            && own[id].invalid == (h[id].invalid || (fromChild && h[id].source.Some?))
            && if h[id].source.None? then Insert(h, id, index, v, fromChild) == own
               else
                 var up := Insert(own, h[id].source.value, h[id].offset + Clamp(index, h[id].count), v, true);
                 |up| == |h| && up[id] == own[id] && Insert(h, id, index, v, fromChild) == Synced(up, id, fromChild)
  {
    hide Inserted;
    OwnShaped(h, id, InsertOwn(h[id], index, v, fromChild));
  }

  /** One level of the walk up: what happened above the source, and the array itself. */
  lemma OneUp(h: Heap, own: Heap, up: Heap, id: nat, fromChild: bool, a: nat, above: bool)
    requires Shaped(h) && id < |h| && a < |h| && h[id].source.Some? && |own| == |h| && own == h[id := own[id]]
    requires own[id].source == h[id].source && own[id].version > h[id].version && own[id].invalid == (h[id].invalid || fromChild)
    requires |up| == |h| && up[id] == own[id]
    requires a != id ==> if above then up[a].version > own[a].version && (own[a].source.Some? ==> up[a].invalid) else up[a] == own[a]
    ensures var r := Synced(up, id, fromChild);
            if a == id || above then
              r[a].version > h[a].version && (h[a].source.Some? && (a != id || fromChild) ==> r[a].invalid)
            else r[a] == h[a]
  {
  }

  /** Sources never change, so what lies above does not either. */
  lemma {:induction false} SameAbove(h: Heap, g: Heap, a: nat, id: nat)
    requires Shaped(h) && Shaped(g) && |g| == |h| && id < |h| && forall w | 0 <= w <= id :: g[w].source == h[w].source
    ensures Above(h, a, id) == Above(g, a, id)
    ensures Above(h, a, id) ==> a <= id
    decreases id
  {
    if h[id].source.Some? { SameAbove(h, g, a, h[id].source.value); }
  }

  /** The arrays a removal reaches: each step up ends where the source is too short. */
  predicate Reached(h: Heap, a: nat, id: nat, index: nat)
    requires Shaped(h) && id < |h|
    decreases id
  {
    a == id || (h[id].source.Some? && h[id].offset + index < h[h[id].source.value].count
                && Reached(h, a, h[id].source.value, h[id].offset + index))
  }

  /** A removal does to them what an insertion does to the whole chain. */
  lemma {:induction false} RemoveReaches(h: Heap, id: nat, index: nat, fromChild: bool, a: nat)
    requires Shaped(h) && id < |h| && a < |h| && index < h[id].count
    ensures var r := Remove(h, id, index, fromChild);
            if Reached(h, a, id, index) then
              r[a].version > h[a].version && (h[a].source.Some? && (a != id || fromChild) ==> r[a].invalid)
            else r[a] == h[a]
    decreases id
  {
    hide Changed, Remove, Removed, Reached, RemoveOwn, Synced;
    var own := h[id := RemoveOwn(h[id], index, fromChild)];
    RemoveUnfold(h, id, index, fromChild);
    ReachedUnfold(h, a, id, index);
    if h[id].source.Some? {
      var s, at := h[id].source.value, h[id].offset + index;
      if at < h[s].count {
        RemoveReaches(own, s, at, true, a);
        SameReached(h, own, a, s, at);
      } else {
        OutOfRange(own, s, at, true);
      }
      OneUp(h, own, Remove(own, s, at, true), id, fromChild, a, at < h[s].count && Reached(h, a, s, at));
    }
  }

  lemma ReachedUnfold(h: Heap, a: nat, id: nat, index: nat)
    requires Shaped(h) && id < |h|
    ensures Reached(h, a, id, index) ==
            (a == id || (h[id].source.Some? && h[id].offset + index < h[h[id].source.value].count
                         && Reached(h, a, h[id].source.value, h[id].offset + index)))
  {
  }

  lemma {:induction false} SameReached(h: Heap, g: Heap, a: nat, id: nat, index: nat)
    requires Shaped(h) && Shaped(g) && |g| == |h| && id < |h| && forall w | 0 <= w <= id :: g[w] == h[w]
    ensures Reached(h, a, id, index) == Reached(g, a, id, index)
    ensures Reached(h, a, id, index) ==> a <= id
    decreases id
  {
    if h[id].source.Some? { SameReached(h, g, a, h[id].source.value, h[id].offset + index); }
  }

  /** Every view from `id` up equals its window. */
  predicate ChainMatches(h: Heap, id: nat)
    requires Shaped(h) && id < |h|
    decreases id
  {
    h[id].source.Some? ==> Matches(h, id) && ChainMatches(h, h[id].source.value)
  }

  /** Then a removal reaches the whole chain. */
  lemma {:induction false} ReachesChain(h: Heap, a: nat, id: nat, index: nat)
    requires Shaped(h) && id < |h| && ChainMatches(h, id) && index < h[id].count
    ensures Reached(h, a, id, index) == Above(h, a, id)
    decreases id
  {
    if h[id].source.Some? { ReachesChain(h, a, h[id].source.value, h[id].offset + index); }
  }

  lemma OutOfRange(h: Heap, id: nat, index: int, fromChild: bool)
    requires Shaped(h) && id < |h|
    ensures !(0 <= index < h[id].count) ==> Remove(h, id, index, fromChild) == h
  {
  }

  lemma RemoveUnfold(h: Heap, id: nat, index: nat, fromChild: bool)
    requires Shaped(h) && id < |h| && index < h[id].count
    ensures var own := h[id := RemoveOwn(h[id], index, fromChild)];
            && Shaped(own) && own[id].source == h[id].source && own[id].version > h[id].version
            && own[id].invalid == (h[id].invalid || (fromChild && h[id].source.Some?))
            && if h[id].source.None? then Remove(h, id, index, fromChild) == own
               else
                 var up := Remove(own, h[id].source.value, h[id].offset + index, true);
                 |up| == |h| && up[id] == own[id] && Remove(h, id, index, fromChild) == Synced(up, id, fromChild)
  {
    hide Removed;
    OwnShaped(h, id, RemoveOwn(h[id], index, fromChild));
  }

  lemma KeptSources(h: Heap, r: Heap, id: nat)
    requires id < |h| && Changed(h, r, id, true)
    ensures |r| == |h| && forall w | 0 <= w < |h| :: r[w].source == h[w].source
  {
    assert forall w | 0 <= w <= id :: Kept(h[w], r[w]);
  }

  /** Inserting nulls one after the other reaches the same arrays. */
  lemma {:induction false} NullsReach(h: Heap, id: nat, from: nat, n: nat, a: nat)
    requires Shaped(h) && id < |h| && a < |h| && n > 0
    ensures var r := InsertNulls(h, id, from, n);
            if Above(h, a, id) then r[a].version > h[a].version && (h[a].source.Some? ==> r[a].invalid) else r[a] == h[a]
    decreases n, 0
  {
    hide Insert, Above, Changed;
    var r := InsertNulls(h, id, from, n - 1);
    NullsThenInsert(h, id, from, n - 1, Null, a);
    assert InsertNulls(h, id, from, n) == Insert(r, id, from + n - 1, Null, true);
  }

  lemma {:induction false} NullsThenInsert(h: Heap, id: nat, from: nat, n: nat, v: Value, a: nat)
    requires Shaped(h) && id < |h| && a < |h|
    ensures var r := Insert(InsertNulls(h, id, from, n), id, from + n, v, true);
            if Above(h, a, id) then r[a].version > h[a].version && (h[a].source.Some? ==> r[a].invalid) else r[a] == h[a]
    decreases n, 1
  {
    hide Insert, Above, Changed, InsertNulls;
    var g := InsertNulls(h, id, from, n);
    KeptSources(h, g, id);
    SameAbove(h, g, a, id);
    InsertReaches(g, id, from + n, v, true, a);
    if n > 0 { NullsReach(h, id, from, n, a); } else { NoNulls(h, id, from); }
  }

  lemma NoNulls(h: Heap, id: nat, from: nat)
    requires Shaped(h) && id < |h|
    ensures InsertNulls(h, id, from, 0) == h
  {
  }

  /** Setting an element reaches the whole chain, inside and behind the end. */
  lemma {:induction false} SetReaches(h: Heap, id: nat, index: nat, v: Value, fromChild: bool, a: nat)
    requires Shaped(h) && id < |h| && a < |h|
    ensures var r := Set(h, id, index, v, fromChild);
            if Above(h, a, id) then
              r[a].version > h[a].version && (h[a].source.Some? && (a != id || fromChild) ==> r[a].invalid)
            else r[a] == h[a]
    decreases id
  {
    hide Changed, Set, SetOwn, Insert, InsertNulls, Above, Synced, Live, Kept;
    AboveUnfold(h, a, id);
    SetUnfold(h, id, index, v, fromChild);
    if h[id].source.Some? {
      if index < h[id].count {
        var own := h[id := SetOwn(h[id], index, v, fromChild)];
        var s, at := h[id].source.value, h[id].offset + index;
        SameAbove(h, own, a, s);
        SetReaches(own, s, at, v, true, a);
        OneUp(h, own, Set(own, s, at, v, true), id, fromChild, a, Above(h, a, s));
      } else {
        SetBehindReaches(h, id, index, v, fromChild, a);
      }
    }
  }

  lemma SetBehindReaches(h: Heap, id: nat, index: nat, v: Value, fromChild: bool, a: nat)
    requires Shaped(h) && id < |h| && a < |h| && h[id].source.Some? && index >= h[id].count
    ensures var r := Set(h, id, index, v, fromChild);
            if Above(h, a, id) then
              r[a].version > h[a].version && (h[a].source.Some? && (a != id || fromChild) ==> r[a].invalid)
            else r[a] == h[a]
  {
    hide Changed, Set, SetOwn, Insert, InsertNulls, Above, Synced, Live, Kept, Inserted, Clamp, Nulls;
    var s, at := h[id].source.value, h[id].offset + index;
    var from, n := h[id].offset + h[id].count, index - h[id].count;
    SetUnfold(h, id, index, v, fromChild);
    var own := h[id := SetOwn(h[id], index, v, fromChild)];
    var up := Insert(InsertNulls(own, s, from, n), s, at, v, true);
    assert from + n == at;
    NullsThenInsert(own, s, from, n, v, a);
    SameAbove(h, own, a, s);
    AboveUnfold(h, a, id);
    OneUp(h, own, up, id, fromChild, a, Above(h, a, s));
  }

  // ----- stale views that count as valid again -----

  /** Two elements and a fresh view of both. */
  const VIEWED: Heap := [Arr([Null, Bool(true)], 2, 2, None, 0, 0, false), Arr([Null, Bool(true)], 2, 2, Some(0), 0, 2, false)]

  /** Inserting in front of the source leaves the view stale but not spoilt. Then inserting
      into it, removing from it or setting an element of it, inside or behind the end, makes
      it count as valid although it does not equal its window. */
  lemma StaleViewRevived(v: Value)
    ensures Sound(VIEWED) && IsValid(VIEWED, 1)
    ensures var h := Insert(VIEWED, 0, 0, Bool(true), false);
            && Sound(h) && !IsValid(h, 1) && !h[1].invalid
            && !Sound(Insert(h, 1, 0, v, false)) && !Sound(Remove(h, 1, 0, false))
            && !Sound(Set(h, 1, 0, v, false)) && !Sound(Set(h, 1, 2, v, false))
  {
    assert Matches(VIEWED, 1);
    InsertSound(VIEWED, 0, 0, Bool(true));
    var h := Insert(VIEWED, 0, 0, Bool(true), false);
    assert Live(VIEWED[0]) == [Null, Bool(true)];
    assert Live(h[0]) == [Bool(true), Null, Bool(true)];
    assert h[1] == VIEWED[1] && Live(h[1]) == [Null, Bool(true)];
    hide Insert, Remove, Set, Changed;
    StaysStale(h, v);
  }

  lemma StaysStale(h: Heap, v: Value)
    requires Sound(h) && |h| == 2 && h[1] == VIEWED[1] && h[0].source == None && h[0].count == 3
    requires Live(h[0]) == [Bool(true), Null, Bool(true)]
    ensures !Sound(Insert(h, 1, 0, v, false)) && !Sound(Remove(h, 1, 0, false))
    ensures !Sound(Set(h, 1, 0, v, false)) && !Sound(Set(h, 1, 2, v, false))
  {
    hide Insert, Remove, Set, Changed;
    assert Live(h[1])[1] == Bool(true) && Live(h[0])[1] == Null == h[0].elements[1];
    assert Live(h[0])[0..2][1] == Null;
    InsertSound(h, 1, 0, v);
    RemoveSound(h, 1, 0);
    SetSound(h, 1, 0, v);
    SetSound(h, 1, 2, v);
  }

  /** Siblings and children are stale afterwards: any other view whose source got a new
      version is no longer valid. */
  lemma OthersStale(h: Heap, r: Heap, id: nat, w: nat)
    requires Shaped(h) && Shaped(r) && id < |h| && Changed(h, r, id, false) && w < |h| && w != id
    requires h[w].source.Some? && r[h[w].source.value].version > h[h[w].source.value].version
    ensures r[w].source == h[w].source && !IsValid(r, w)
  {
    assert Kept(h[w], r[w]);
  }
}
