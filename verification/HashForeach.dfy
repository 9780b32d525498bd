/** foreach over a hash: the loop counts live slots in iteration order and looks the next
    one up by its rank, and remove() deletes the entry just visited from the table. */
module HashForeach {
  import opened Values
  import opened Probing
  import opened Ranking
  import opened HashSlots
  import opened HashOrder
  import opened HashTable

  /** `idx` is the counter on the stack, `key` the entry remove() refers to. */
  datatype Loop = Loop(entries: seq<Slot>, idx: nat, key: Option<string>)

  type Item = (string, Value)

  function Start(es: seq<Slot>): Loop { Loop(es, 0, None) }

  /** slp_obj_hash_ordered_index, from slot `from` on. */
  function OrderedSlot(es: seq<Slot>, mode: nat, ordinal: nat, from: nat): (i: int)
    ensures -1 <= i < |es| && (i >= 0 ==> es[i].Live())
    decreases |es| - from
  {
    if from >= |es| then -1
    else if es[from].Live() && CountBefore(es, mode, from, |es|) == ordinal then from
    else OrderedSlot(es, mode, ordinal, from + 1)
  }

  /** Slots whose value is null are passed over; when only such slots are left, the search
      ends behind the last of them, which is still in hand. */
  function Skip(es: seq<Slot>, mode: nat, ordinal: nat, i: int): (r: (int, nat))
    requires -1 <= i < |es| && (i >= 0 ==> es[i].Live())
    ensures -1 <= r.0 < |es| && (r.0 >= 0 ==> es[r.0].Live())
    decreases LiveCount(es) - ordinal
  {
    if ordinal >= LiveCount(es) then (i, ordinal)
    else
      var j := OrderedSlot(es, mode, ordinal, 0);
      if j < 0 || es[j].value != Null then (j, ordinal) else Skip(es, mode, ordinal + 1, j)
  }

  /** OP_FOREACH_NEXT on a hash. */
  function Advance(l: Loop, mode: nat): (Option<Item>, Loop) {
    var (i, ordinal) := Skip(l.entries, mode, l.idx, -1);
    if i < 0 then (None, l.(key := None))
    else (Some((l.entries[i].key.value, l.entries[i].value)), Loop(l.entries, ordinal + 1, l.entries[i].key))
  }

  /** The first slot with the key. */
  function Position(es: seq<Slot>, key: string): (i: nat)
    ensures i <= |es| && (i < |es| ==> Holds(es, i, key))
    ensures i == |es| ==> !InTable(es, key)
  {
    if es == [] || es[0].key == Some(key) then 0
    else
      var i := Position(es[1..], key);
      assert forall j | 1 <= j < |es| :: Holds(es, j, key) ==> Holds(es[1..], j - 1, key);
      i + 1
  }

  function Deleted(es: seq<Slot>, key: string): seq<Slot> {
    var i := Position(es, key);
    if i < |es| then es[i := TOMBSTONE] else es
  }

  /** native_remove without arguments. */
  function RemoveCurrent(l: Loop): Loop {
    match l.key
    case None => l
    case Some(key) => Loop(Deleted(l.entries, key), if l.idx > 0 then l.idx - 1 else 0, None)
  }

  /** What the loop visits, the slots it leaves, and whether it came to its end when the
      given runs of the body were used up. */
  datatype Trip = Trip(visited: seq<Item>, left: seq<Slot>, ended: bool)

  /** `gone[i]` says whether the i-th run of the body calls remove(). */
  function Run(l: Loop, mode: nat, gone: seq<bool>): Trip
    decreases |gone|
  {
    var (item, m) := Advance(l, mode);
    if item.None? then Trip([], m.entries, true)
    else if gone == [] then Trip([], m.entries, false)
    else
      var rest := Run(if gone[0] then RemoveCurrent(m) else m, mode, gone[1..]);
      Trip([item.value] + rest.visited, rest.left, rest.ended)
  }

  // ----- deleting -----

  function Without<T>(s: seq<T>, k: nat): seq<T>
    requires k < |s|
  {
    s[..k] + s[k + 1..]
  }

  /** Deleting a slot takes it out of the iteration order and leaves the others in theirs:
      for every order mode. */
  lemma DeleteKeepsOrder(es: seq<Slot>, mode: nat, next: nat, at: seq<nat>, k: nat)
    requires Stamped(es, next) && Enumerates(es, mode, at) && k < |at|
    ensures Enumerates(es[at[k] := TOMBSTONE], mode, Without(at, k))
  {
    hide LiveCount;
    var i, es', rest := at[k], es[at[k] := TOMBSTONE], Without(at, k);
    LiveUpdate(es, i, TOMBSTONE);
    hide RankOf, Stamped, Precedes;
    forall r | 0 <= r < |rest| ensures rest[r] < |es'| && es'[rest[r]].Live() && RankOf(es', mode, rest[r]) == r {
      var q := if r < k then r else r + 1;
      assert rest[r] == at[q] && RankOf(es, mode, at[q]) == q && RankOf(es, mode, i) == k;
      RankWithout(es, mode, next, i, at[q]);
    }
  }

  lemma RankWithout(es: seq<Slot>, mode: nat, next: nat, i: nat, j: nat)
    requires Stamped(es, next) && i < |es| && j < |es| && i != j && es[i].Live() && es[j].Live()
    ensures RankOf(es[i := TOMBSTONE], mode, j) == RankOf(es, mode, j) - (if RankOf(es, mode, i) < RankOf(es, mode, j) then 1 else 0)
  {
    var es' := es[i := TOMBSTONE];
    PrecedesOrders(es, mode, next);
    RankOrder(Order(es, mode), LiveSlots(es), i, j);
    var a, b := Below(Order(es, mode), LiveSlots(es), j), Below(Order(es', mode), LiveSlots(es'), j);
    assert b == a - {i};
    assert i in a <==> Precedes(es, mode, i, j);
  }

  lemma DeletedIs(es: seq<Slot>, i: nat)
    requires Table(es) && i < |es| && es[i].Live()
    ensures Deleted(es, es[i].key.value) == es[i := TOMBSTONE]
    ensures Table(es[i := TOMBSTONE]) && Items(es[i := TOMBSTONE]) == Items(es) - {es[i].key.value}
  {
    var key := es[i].key.value;
    assert Holds(es, i, key);
    Bury(es, i, key);
    hide Items, Findable;
    assert Holds(es, Position(es, key), key);
  }

  /** What the table's delete leaves is what the specification leaves. */
  lemma DeletedSlots(es: seq<Slot>, count: nat, next: nat, left: seq<Slot>, key: string, deleted: bool)
    requires Sound(es, count, next) && deleted == (key in Items(es)) && (!deleted ==> left == es)
    requires deleted ==> exists i :: Holds(es, i, key) && left == es[i := TOMBSTONE]
    ensures left == Deleted(es, key)
  {
    hide Findable, Stamped, LiveCount;
    if deleted {
      var i :| Holds(es, i, key) && left == es[i := TOMBSTONE];
      assert Holds(es, Position(es, key), key);
    }
  }

  // ----- the slots in iteration order -----

  /** The live slots of a sound table, as the loop is to visit them. */
  ghost predicate Listed(es: seq<Slot>, mode: nat, next: nat, at: seq<nat>) {
    Table(es) && Stamped(es, next) && Enumerates(es, mode, at)
  }

  ghost function SlotsAt(es: seq<Slot>, mode: nat, at: seq<nat>): (s: seq<Slot>)
    requires Enumerates(es, mode, at)
    ensures |s| == |at| && AllLive(s)
    ensures forall r | 0 <= r < |at| :: at[r] < |es| && s[r] == es[at[r]]
  {
    seq(|at|, r requires 0 <= r < |at| => es[at[r]])
  }

  predicate AllLive(s: seq<Slot>) { forall r | 0 <= r < |s| :: s[r].Live() }

  lemma {:induction false} RankFound(es: seq<Slot>, mode: nat, next: nat, at: seq<nat>, r: nat, from: nat)
    requires Stamped(es, next) && Enumerates(es, mode, at) && (r < |at| ==> from <= at[r])
    ensures OrderedSlot(es, mode, r, from) == if r < |at| then at[r] else -1
    decreases |es| - from
  {
    hide LiveCount, RankOf, Stamped, Precedes, CountBefore;
    Enumeration(es, mode, next, at);
    if from < |es| {
      CountIsRank(es, mode, from, |es|);
      if !(es[from].Live() && RankOf(es, mode, from) == r) {
        RankFound(es, mode, next, at, r, from + 1);
      }
    }
  }

  /** The number of slots without a value in front. */
  function Nulls(s: seq<Slot>): (n: nat)
    ensures n <= |s|
  {
    if s == [] || s[0].value != Null then 0 else 1 + Nulls(s[1..])
  }

  /** Where the search of a turn ends. */
  lemma {:induction false} SkipLands(es: seq<Slot>, mode: nat, next: nat, at: seq<nat>, n: nat, i: int)
    requires Stamped(es, next) && Enumerates(es, mode, at) && n <= |at|
    requires -1 <= i < |es| && (i >= 0 ==> es[i].Live())
    ensures var s := SlotsAt(es, mode, at)[n..];
            var q := Nulls(s);
            Skip(es, mode, n, i) == if s == [] then (i, n) else if q == |s| then (at[|at| - 1] as int, |at|) else (at[n + q] as int, n + q)
    decreases |at| - n
  {
    hide LiveCount, Enumerates, Stamped, Skip, OrderedSlot;
    var s := SlotsAt(es, mode, at)[n..];
    SkipTurn(es, mode, n, i);
    LiveAt(es, mode, at, n);
    if n < |at| {
      RankFound(es, mode, next, at, n, 0);
      if s[0].value == Null {
        assert s[1..] == SlotsAt(es, mode, at)[n + 1..];
        SkipLands(es, mode, next, at, n + 1, at[n]);
      }
    }
  }

  lemma SkipTurn(es: seq<Slot>, mode: nat, n: nat, i: int)
    requires -1 <= i < |es| && (i >= 0 ==> es[i].Live())
    ensures Skip(es, mode, n, i) ==
            if n >= LiveCount(es) then (i, n)
            else
              var j := OrderedSlot(es, mode, n, 0);
              if j < 0 || es[j].value != Null then (j, n) else Skip(es, mode, n + 1, j)
  {
    hide LiveCount, OrderedSlot;
  }

  // ----- what is visited -----

  function ItemOf(s: Slot): Item
    requires s.Live()
  {
    (s.key.value, s.value)
  }

  /** Every slot with a value, and the last slot even without one. */
  function Visits(s: seq<Slot>): (r: seq<Item>)
    requires AllLive(s)
  {
    if s == [] then []
    else if s[0].value == Null && |s| > 1 then Visits(s[1..])
    else [ItemOf(s[0])] + Visits(s[1..])
  }

  function Valued(s: seq<Slot>): seq<Item>
    requires AllLive(s)
  {
    if s == [] then []
    else (if s[0].value == Null then [] else [ItemOf(s[0])]) + Valued(s[1..])
  }

  /** Exactly the entries with values are visited, and after them the last entry of the
      iteration order in case it has none. */
  lemma {:induction false} VisitsAre(s: seq<Slot>)
    requires AllLive(s)
    ensures Visits(s) == Valued(s) + if s != [] && s[|s| - 1].value == Null then [ItemOf(s[|s| - 1])] else []
  {
    if s != [] { VisitsAre(s[1..]); }
  }

  lemma {:induction false} FirstVisit(s: seq<Slot>)
    requires AllLive(s) && s != []
    ensures var q := Nulls(s);
            Visits(s) == if q == |s| then [ItemOf(s[|s| - 1])] else [ItemOf(s[q])] + Visits(s[q + 1..])
  {
    if s[0].value == Null && |s| > 1 {
      FirstVisit(s[1..]);
      assert Nulls(s) < |s| ==> s[1..][Nulls(s)..] == s[Nulls(s) + 1..];
    }
  }

  /** The keys of the runs that call remove(). */
  function Marked(visited: seq<Item>, gone: seq<bool>): set<string>
    requires |visited| == |gone|
  {
    if gone == [] then {} else (if gone[0] then {visited[0].0} else {}) + Marked(visited[1..], gone[1..])
  }

  // ----- whole loops -----

  /** What is still to come when the counter is at `n`. */
  ghost function Rest(es: seq<Slot>, mode: nat, at: seq<nat>, n: nat): (s: seq<Slot>)
    requires Enumerates(es, mode, at)
    ensures AllLive(s)
  {
    if n <= |at| then SlotsAt(es, mode, at)[n..] else []
  }

  /** One turn: the next entry, and the state its run of the body starts from. */
  lemma Turn(l: Loop, mode: nat, next: nat, at: seq<nat>) returns (k: nat)
    requires Listed(l.entries, mode, next, at)
    ensures var (item, m) := Advance(l, mode);
            var s := Rest(l.entries, mode, at, l.idx);
            if s == [] then item.None? && m.entries == l.entries
            else
              && k < |at| && item == Some(ItemOf(l.entries[at[k]])) && m == Loop(l.entries, m.idx, l.entries[at[k]].key)
              && m.idx >= 1 && (m.idx == k + 1 || m.idx == |at| + 1 == k + 2)
              && Visits(s) == [item.value] + Visits(Rest(l.entries, mode, at, m.idx))
  {
    hide Table, Stamped, Enumerates, Skip, Visits, Nulls;
    k := 0;
    if l.idx <= |at| {
      SkipLands(l.entries, mode, next, at, l.idx, -1);
      var q := Nulls(Rest(l.entries, mode, at, l.idx));
      if l.idx < |at| {
        k := if l.idx + q == |at| then |at| - 1 else l.idx + q;
        VisitsRest(l.entries, mode, at, l.idx);
      }
    } else {
      PastEnd(l, mode, at);
    }
  }

  lemma VisitsRest(es: seq<Slot>, mode: nat, at: seq<nat>, n: nat)
    requires Enumerates(es, mode, at) && n < |at|
    ensures var q := Nulls(Rest(es, mode, at, n));
            var k := if n + q == |at| then |at| - 1 else n + q;
            && n + q <= |at| && at[k] < |es| && es[at[k]].Live()
            && Visits(Rest(es, mode, at, n)) == [ItemOf(es[at[k]])] + Visits(Rest(es, mode, at, if n + q == |at| then |at| + 1 else n + q + 1))
  {
    hide Enumerates, Visits, Nulls, Rest, AllLive, SlotsAt;
    var q := Nulls(Rest(es, mode, at, n));
    RestIs(es, mode, at, n);
    RestIs(es, mode, at, n + q + 1);
    RestIs(es, mode, at, |at| + 1);
    VisitsSuffix(SlotsAt(es, mode, at), n);
    LiveAt(es, mode, at, if n + q == |at| then |at| - 1 else n + q);
    NoVisits();
  }

  lemma RestIs(es: seq<Slot>, mode: nat, at: seq<nat>, n: nat)
    requires Enumerates(es, mode, at)
    ensures Rest(es, mode, at, n) == if n <= |at| then SlotsAt(es, mode, at)[n..] else []
    ensures AllLive(SlotsAt(es, mode, at))
  {
    hide Enumerates;
  }

  lemma VisitsSuffix(ss: seq<Slot>, n: nat)
    requires AllLive(ss) && n < |ss|
    ensures AllLive(ss[n..])
    ensures var q := Nulls(ss[n..]);
            && n + q <= |ss|
            && if n + q == |ss| then Visits(ss[n..]) == [ItemOf(ss[|ss| - 1])]
               else AllLive(ss[n + q + 1..]) && Visits(ss[n..]) == [ItemOf(ss[n + q])] + Visits(ss[n + q + 1..])
  {
    hide Visits, Nulls;
    var s := ss[n..];
    FirstVisit(s);
    if n + Nulls(s) < |ss| { Suffixes(ss, n, Nulls(s)); } else { assert s[|s| - 1] == ss[|ss| - 1]; }
  }

  lemma Suffixes<T>(s: seq<T>, n: nat, q: nat)
    requires n + q < |s|
    ensures s[n..][q] == s[n + q] && s[n..][q + 1..] == s[n + q + 1..]
  {
  }

  lemma NoVisits()
    ensures Visits([]) == []
  {
  }

  lemma PastEnd(l: Loop, mode: nat, at: seq<nat>)
    requires Enumerates(l.entries, mode, at) && l.idx > |at|
    ensures Skip(l.entries, mode, l.idx, -1) == (-1, l.idx)
  {
  }

  /** remove() takes entry `k` away and leaves to be visited what was left to be visited. */
  lemma RemovedTurn(l: Loop, mode: nat, next: nat, at: seq<nat>, k: nat)
    requires Listed(l.entries, mode, next, at) && k < |at| && l.key == l.entries[at[k]].key
    requires l.idx >= 1 && (l.idx == k + 1 || l.idx == |at| + 1 == k + 2)
    ensures var m := RemoveCurrent(l);
            && Listed(m.entries, mode, next, Without(at, k))
            && Rest(m.entries, mode, Without(at, k), m.idx) == Rest(l.entries, mode, at, l.idx)
            && Items(m.entries) == Items(l.entries) - {l.key.value}
  {
    hide Table, Stamped, Items, Deleted, Enumerates;
    var es, i := l.entries, at[k];
    LiveAt(es, mode, at, k);
    DeletedIs(es, i);
    DeleteKeepsOrder(es, mode, next, at, k);
    StillStamped(es, next, i);
    SlotsKept(es, mode, at, k);
    if l.idx == k + 1 { SuffixWithout(SlotsAt(es, mode, at), k); }
  }

  lemma LiveAt(es: seq<Slot>, mode: nat, at: seq<nat>, k: nat)
    requires Enumerates(es, mode, at)
    ensures |at| == LiveCount(es) && (k < |at| ==> at[k] < |es| && es[at[k]].Live())
  {
  }

  lemma StillStamped(es: seq<Slot>, next: nat, i: nat)
    requires Stamped(es, next) && i < |es|
    ensures Stamped(es[i := TOMBSTONE], next)
  {
  }

  lemma SuffixWithout<T>(s: seq<T>, k: nat)
    requires k < |s|
    ensures Without(s, k)[k..] == s[k + 1..]
  {
  }

  lemma SlotsKept(es: seq<Slot>, mode: nat, at: seq<nat>, k: nat)
    requires Enumerates(es, mode, at) && k < |at| && Enumerates(es[at[k] := TOMBSTONE], mode, Without(at, k))
    ensures SlotsAt(es[at[k] := TOMBSTONE], mode, Without(at, k)) == Without(SlotsAt(es, mode, at), k)
  {
    hide LiveCount, RankOf;
    var es', rest := es[at[k] := TOMBSTONE], Without(at, k);
    forall r | 0 <= r < |rest| ensures es'[rest[r]] == Without(SlotsAt(es, mode, at), k)[r] {
      var q := if r < k then r else r + 1;
      assert rest[r] == at[q] && RankOf(es, mode, at[q]) == q && RankOf(es, mode, at[k]) == k;
    }
  }

  lemma {:induction false} RemovesFrom(l: Loop, mode: nat, next: nat, at: seq<nat>, gone: seq<bool>)
    requires Listed(l.entries, mode, next, at) && |gone| == |Visits(Rest(l.entries, mode, at, l.idx))|
    ensures var visited := Visits(Rest(l.entries, mode, at, l.idx));
            var trip := Run(l, mode, gone);
            && trip.visited == visited && trip.ended && Table(trip.left)
            && Items(trip.left) == Items(l.entries) - Marked(visited, gone)
    decreases |gone|
  {
    hide Listed, Items, Advance, RemoveCurrent, Rest, Enumerates, Visits, AllLive, Table, Marked;
    ListedTable(l.entries, mode, next, at);
    var visited := Visits(Rest(l.entries, mode, at, l.idx));
    var k := Turn(l, mode, next, at);
    var m := Advance(l, mode).1;
    if Rest(l.entries, mode, at, l.idx) == [] {
      NoVisits();
      NothingMarked(Items(l.entries));
    } else if gone[0] {
      MarkedTurn(visited, gone);
      RemovedTurn(m, mode, next, at, k);
      ListedTable(RemoveCurrent(m).entries, mode, next, Without(at, k));
      RemovesFrom(RemoveCurrent(m), mode, next, Without(at, k), gone[1..]);
    } else {
      MarkedTurn(visited, gone);
      RemovesFrom(m, mode, next, at, gone[1..]);
    }
  }

  lemma NothingMarked(m: map<string, HashSlots.Item>)
    ensures m - Marked([], []) == m
  {
  }

  lemma MarkedTurn(visited: seq<Item>, gone: seq<bool>)
    requires |visited| == |gone| && gone != []
    ensures Marked(visited, gone) == (if gone[0] then {visited[0].0} else {}) + Marked(visited[1..], gone[1..])
  {
  }

  lemma ListedTable(es: seq<Slot>, mode: nat, next: nat, at: seq<nat>)
    requires Listed(es, mode, next, at)
    ensures Table(es) && Enumerates(es, mode, at)
  {
  }

  /** A foreach over any sound table whose body removes any subset of what it visits: every
      entry with a value is visited once, in iteration order (`VisitsAre`), the loop ends,
      and the table it leaves is the old map without the removed keys. */
  lemma RemovingVisitsAll(es: seq<Slot>, mode: nat, next: nat, at: seq<nat>, gone: seq<bool>)
    requires Table(es) && Stamped(es, next) && Enumerates(es, mode, at)
    requires |gone| == |Visits(SlotsAt(es, mode, at))|
    ensures var visited := Visits(SlotsAt(es, mode, at));
            var trip := Run(Start(es), mode, gone);
            && trip.visited == visited && trip.ended && Table(trip.left)
            && Items(trip.left) == Items(es) - Marked(visited, gone)
  {
    assert SlotsAt(es, mode, at)[0..] == SlotsAt(es, mode, at);
    RemovesFrom(Start(es), mode, next, at, gone);
  }

  // ----- the frame that steps through a hash -----

  class Iteration {
    const hash: Hash
    var idx: nat
    var key: Option<string>

    constructor (hash: Hash)
      ensures this.hash == hash && idx == 0 && key == None
    {
      this.hash, idx, key := hash, 0, None;
    }

    ghost function Now(): Loop
      reads this, hash, hash.entries
    {
      Loop(hash.entries[..], idx, key)
    }

    /** OP_FOREACH_NEXT on a hash. */
    method Step() returns (item: Option<Item>)
      requires hash.Valid()
      modifies this
      ensures Advance(old(Now()), hash.orderMode) == (item, Now())
    {
      hide Table, Stamped, LiveCount, OrderedSlot;
      assert hash.count == LiveCount(hash.entries[..]);
      ghost var es := hash.entries[..];
      var ordinal, i := idx, -1;
      while ordinal < hash.count
        invariant unchanged(this) && -1 <= i < |es| && (i >= 0 ==> es[i].Live())
        invariant Skip(es, hash.orderMode, ordinal, i) == Skip(es, hash.orderMode, idx, -1)
      {
        i := hash.OrderedIndex(ordinal);
        Ordered(es, hash.orderMode, hash.count, hash.nextSequence, ordinal, i);
        if i < 0 || hash.entries[i].value != Null {
          break;
        }
        ordinal := ordinal + 1;
      }
      assert Skip(es, hash.orderMode, idx, -1) == (i, ordinal);
      if i >= 0 {
        key := hash.entries[i].key;
        idx := ordinal + 1;
        item := Some((key.value, hash.entries[i].value));
      } else {
        key := None;
        item := None;
      }
    }

    /** remove() inside the loop. */
    method RemoveElement()
      requires hash.Valid()
      modifies this, hash`count, hash.entries
      ensures hash.Valid() && Now() == RemoveCurrent(old(Now()))
    {
      hide Sound, Items, Deleted, Table;
      if key.Some? {
        ghost var es, count, next := hash.entries[..], hash.count, hash.nextSequence;
        var deleted := hash.Delete(key.value);
        DeletedSlots(es, count, next, hash.entries[..], key.value, deleted);
        idx := if idx > 0 then idx - 1 else 0;
        key := None;
      }
    }
  }

  /** The table's search by rank finds the slot of the specification. */
  lemma Ordered(es: seq<Slot>, mode: nat, count: nat, next: nat, ordinal: nat, i: int)
    requires Sound(es, count, next) && ordinal < count
    requires 0 <= i < |es| && es[i].Live() && RankOf(es, mode, i) == ordinal
    ensures i == OrderedSlot(es, mode, ordinal, 0) && count == LiveCount(es)
  {
    hide Table, Stamped, LiveCount, RankOf, OrderedSlot;
    var at := EnumerationExists(es, mode, next);
    Enumeration(es, mode, next, at);
    RankFound(es, mode, next, at, ordinal, 0);
  }
}
