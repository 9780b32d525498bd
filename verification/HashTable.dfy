/** The ordered hash: an open-addressing table whose live slots carry sequence numbers.
    Keys are canonical strings. */
module HashTable {
  import opened Values
  import opened Probing
  import opened HashSlots
  import opened HashOrder

  /** What the table means: each key's value and sequence number, and the last sequence
      number given out. */
  datatype View = View(items: map<string, Item>, next: nat)

  /** Overwriting keeps the sequence number, a new key gets the next one. */
  function Put(v: View, key: string, value: Value): View {
    if key in v.items then v.(items := v.items[key := Item(value, v.items[key].sequence)])
    else View(v.items[key := Item(value, v.next + 1)], v.next + 1)
  }

  /** In access order, reading a value other than null makes the key the youngest. */
  function Touch(v: View, mode: nat, key: string): View {
    if mode == 2 && key in v.items && v.items[key].value != Null
    then View(v.items[key := Item(v.items[key].value, v.next + 1)], v.next + 1)
    else v
  }

  function Drop(v: View, key: string): View { v.(items := v.items - {key}) }

  function ValueAt(v: View, key: string): Value {
    if key in v.items then v.items[key].value else Null
  }

  ghost predicate Capacity(n: nat) { n == 0 || Doubled(n, FIRST_CAPACITY) }

  ghost predicate Sound(es: seq<Slot>, count: nat, next: nat) {
    Capacity(|es|) && Table(es) && count == LiveCount(es) && count <= |es| * 3 / 4 && Stamped(es, next)
  }

  lemma NextCapacity(n: nat)
    requires Capacity(n)
    ensures Capacity(if n == 0 then 16 else n * 2) && (n == 0 || n >= 16)
  {
    if n > 0 { DoubledAgain(n, FIRST_CAPACITY); }
  }

  // ----- what one changed slot does to a sound table -----

  lemma Inserted(es: seq<Slot>, count: nat, next: nat, i: nat, key: string, value: Value)
    requires Sound(es, count, next) && i < |es| && !es[i].Live() && !InTable(es, key)
    requires Unbroken(es, key, Distance(Home(key, |es|), i, |es|)) && count + 1 <= |es| * 3 / 4
    ensures Sound(es[i := Slot(Some(key), value, next + 1)], count + 1, next + 1)
    ensures View(Items(es[i := Slot(Some(key), value, next + 1)]), next + 1) == Put(View(Items(es), next), key, value)
  {
    hide Items, Table, LiveCount, Doubled, Unbroken;
    StoreNew(es, i, key, Item(value, next + 1));
    LiveUpdate(es, i, Slot(Some(key), value, next + 1));
  }

  /** `stamp` is the slot's own sequence number or the next one. */
  lemma Overwritten(es: seq<Slot>, count: nat, next: nat, i: nat, key: string, value: Value, stamp: nat, next': nat)
    requires Sound(es, count, next) && Holds(es, i, key)
    requires (stamp == es[i].sequence && next' == next) || (stamp == next + 1 && next' == next + 1)
    ensures Sound(es[i := Slot(Some(key), value, stamp)], count, next')
    ensures Items(es[i := Slot(Some(key), value, stamp)]) == Items(es)[key := Item(value, stamp)]
    ensures key in Items(es) && Items(es)[key] == Item(es[i].value, es[i].sequence)
  {
    assert key in Items(es) && Items(es)[key] == Item(es[i].value, es[i].sequence);
    hide Items, Table, LiveCount, Doubled, Stamped;
    StoreOver(es, i, key, Item(value, stamp));
    LiveUpdate(es, i, Slot(Some(key), value, stamp));
    Restamped(es, next, i, Slot(Some(key), value, stamp), next');
  }

  lemma Restamped(es: seq<Slot>, next: nat, i: nat, s: Slot, next': nat)
    requires Stamped(es, next) && i < |es| && es[i].Live()
    requires (s.sequence == es[i].sequence && next' == next) || (s.sequence == next + 1 && next' == next + 1)
    ensures Stamped(es[i := s], next')
  {
    var t := es[i := s];
    forall j | 0 <= j < |t| && t[j].Live() ensures 1 <= t[j].sequence <= next' {
      assert j != i ==> es[j].Live();
    }
  }

  lemma Buried(es: seq<Slot>, count: nat, next: nat, i: nat, key: string)
    requires Sound(es, count, next) && Holds(es, i, key)
    ensures count > 0 && Sound(es[i := TOMBSTONE], count - 1, next)
    ensures View(Items(es[i := TOMBSTONE]), next) == Drop(View(Items(es), next), key)
  {
    hide Items, Table, Doubled, LiveCount;
    Bury(es, i, key);
    LiveUpdate(es, i, TOMBSTONE);
  }

  /** The new table `t` after the first `n` slots of `es` have been copied. */
  ghost predicate Partial(es: seq<Slot>, n: nat, t: seq<Slot>)
    requires n <= |es|
  {
    && Table(t) && Items(t) == Items(es[..n]) && LiveCount(t) == LiveCount(es[..n])
    && (forall j | 0 <= j < |t| && t[j].Live() :: exists k :: 0 <= k < |es| && t[j] == es[k])
  }

  /** One more slot copied. */
  lemma Copied(es: seq<Slot>, n: nat, t: seq<Slot>, i: nat)
    requires Table(es) && n < |es| && es[n].Live() && Partial(es, n, t)
    requires i < |t| && !t[i].Live()
    requires forall k | 0 <= k < Distance(Home(es[n].key.value, |t|), i, |t|) ::
               t[Probe(Home(es[n].key.value, |t|), k, |t|)].Live()
    ensures Partial(es, n + 1, t[i := es[n]])
  {
    NextItem(es, n);
    assert Unbroken(t, es[n].key.value, Distance(Home(es[n].key.value, |t|), i, |t|));
    hide LiveCount, Unbroken, Unique, Findable;
    var key := es[n].key.value;
    assert key !in Items(es[..n]);
    assert !InTable(t, key);
    hide Items;
    StoreNew(t, i, key, Item(es[n].value, es[n].sequence));
    LiveUpdate(t, i, es[n]);
  }

  lemma Skipped(es: seq<Slot>, n: nat, t: seq<Slot>)
    requires Table(es) && n < |es| && !es[n].Live() && Partial(es, n, t)
    ensures Partial(es, n + 1, t)
  {
    NextItem(es, n);
  }

  lemma StartCopy(es: seq<Slot>, t: seq<Slot>)
    requires forall i | 0 <= i < |t| :: t[i] == UNUSED
    ensures Partial(es, 0, t)
  {
    EmptyTable(t);
    EmptyTable(es[..0]);
  }

  lemma EndCopy(es: seq<Slot>, count: nat, next: nat, t: seq<Slot>)
    requires Sound(es, count, next) && Partial(es, |es|, t) && |t| == (if es == [] then 16 else 2 * |es|)
    ensures Sound(t, count, next) && Items(t) == Items(es)
  {
    hide Table, LiveCount, Doubled, Items, Unique;
    assert es[..|es|] == es;
    NextCapacity(|es|);
    assert Unique(t) by { TableParts(t); }
    StampsCopied(es, t, next);
  }

  lemma TableParts(t: seq<Slot>)
    requires Table(t)
    ensures Unique(t)
  {
  }

  /** Slots copied from a stamped table are stamped. */
  lemma StampsCopied(es: seq<Slot>, t: seq<Slot>, next: nat)
    requires Stamped(es, next) && Unique(t)
    requires forall j | 0 <= j < |t| && t[j].Live() :: exists k :: 0 <= k < |es| && t[j] == es[k]
    ensures Stamped(t, next)
  {
    forall i, j | 0 <= i < |t| && 0 <= j < |t| && t[i].Live() && t[j].Live() && i != j
      ensures t[i].sequence != t[j].sequence
    {
      assert Holds(t, i, t[i].key.value) && Holds(t, j, t[j].key.value);
      var a :| 0 <= a < |es| && t[i] == es[a];
      var b :| 0 <= b < |es| && t[j] == es[b];
      assert a != b;
    }
  }

  // ----- the search of a set -----

  /** `n` slots have been passed; `tombstone` is a tombstone among them, or -1 when all
      of them are live. */
  ghost predicate Searching(es: seq<Slot>, key: string, n: nat, tombstone: int) {
    && 0 < |es| && n <= |es| && Passed(es, key, n)
    && (if tombstone == -1 then forall k | 0 <= k < n :: es[Probe(Home(key, |es|), k, |es|)].Live()
        else && 0 <= tombstone < |es| && !es[tombstone].Live()
             && Distance(Home(key, |es|), tombstone, |es|) < n)
  }

  lemma RoomFor(es: seq<Slot>, count: nat, next: nat)
    requires Sound(es, count, next)
    ensures (|es| == 0 || |es| >= 16) && count <= |es| * 3 / 4
  {
    NextCapacity(|es|);
  }

  lemma StartSearch(es: seq<Slot>, key: string)
    requires |es| > 0
    ensures Searching(es, key, 0, -1)
  {
  }

  lemma PassTombstone(es: seq<Slot>, key: string, n: nat, tombstone: int)
    requires Searching(es, key, n, tombstone) && n < |es|
    requires es[Probe(Home(key, |es|), n, |es|)].Tombstone()
    ensures Searching(es, key, n + 1, if tombstone == -1 then Probe(Home(key, |es|), n, |es|) else tombstone)
  {
  }

  lemma PassOther(es: seq<Slot>, key: string, n: nat, tombstone: int)
    requires Searching(es, key, n, tombstone) && n < |es|
    requires es[Probe(Home(key, |es|), n, |es|)].Live() && es[Probe(Home(key, |es|), n, |es|)].key != Some(key)
    ensures Searching(es, key, n + 1, tombstone)
  {
  }

  /** At a slot that was never used the key is known to be absent, and the slot or the
      tombstone can take it. */
  lemma SearchEnds(es: seq<Slot>, key: string, count: nat, next: nat, n: nat, tombstone: int)
    requires Searching(es, key, n, tombstone) && n < |es| && Sound(es, count, next)
    requires es[Probe(Home(key, |es|), n, |es|)].NeverUsed()
    ensures !InTable(es, key)
    ensures tombstone == -1 || 0 <= tombstone < |es|
    ensures var i := if tombstone == -1 then Probe(Home(key, |es|), n, |es|) else tombstone;
            !es[i].Live() && Unbroken(es, key, Distance(Home(key, |es|), i, |es|))
  {
    StopsAtUnused(es, key, n);
  }

  /** A full round always met a tombstone: the table is never full. */
  lemma SearchedAll(es: seq<Slot>, key: string, count: nat, next: nat, tombstone: int)
    requires Searching(es, key, |es|, tombstone) && Sound(es, count, next)
    ensures 0 <= tombstone < |es| && !es[tombstone].Live() && !InTable(es, key)
    ensures Unbroken(es, key, Distance(Home(key, |es|), tombstone, |es|))
  {
    StopsAfterAll(es, key);
    if tombstone == -1 {
      AllLive(es);
      var i :| 0 <= i < |es| && !es[i].Live();
      var d := Distance(Home(key, |es|), i, |es|);
    }
  }

  lemma NotFound(es: seq<Slot>, key: string, tombstone: int)
    requires Searching(es, key, |es|, tombstone)
    ensures !InTable(es, key)
  {
    StopsAfterAll(es, key);
  }

  lemma NoKeys(es: seq<Slot>)
    requires es == []
    ensures Items(es) == map[]
  {
    EmptyTable(es);
  }

  lemma NotBefore(es: seq<Slot>, mode: nat, other: nat, candidate: nat)
    requires other < |es| && (!es[other].Live() || other == candidate)
    ensures !Precedes(es, mode, other, candidate)
  {
  }

  ghost function Visible(m: map<string, Item>): set<string> {
    set key | key in m && m[key].value != Null
  }

  lemma NextVisible(m: map<string, Item>, s: Slot)
    requires s.Live() ==> s.key.value !in m
    ensures var m' := if s.Live() then m[s.key.value := Item(s.value, s.sequence)] else m;
            |Visible(m')| == |Visible(m)| + (if s.Live() && s.value != Null then 1 else 0)
  {
    if s.Live() {
      var m' := m[s.key.value := Item(s.value, s.sequence)];
      assert Visible(m') == Visible(m) + (if s.value != Null then {s.key.value} else {});
    }
  }

  class Hash {
    var entries: array<Slot>
    var count: nat
    var nextSequence: nat
    var orderMode: nat

    ghost predicate Valid()
      reads this, entries
    {
      Sound(entries[..], count, nextSequence)
    }

    ghost function Now(): View
      reads this, entries
    {
      View(Items(entries[..]), nextSequence)
    }

    constructor (mode: nat)
      ensures Valid() && fresh(entries) && Now() == View(map[], 0) && orderMode == mode && count == 0
    {
      entries := new Slot[0](_ => UNUSED);
      count := 0;
      nextSequence := 0;
      orderMode := mode;
      new;
      EmptyTable(entries[..]);
    }

    /** Doubling the capacity drops the tombstones and keeps everything else. */
    method Grow()
      requires Valid()
      modifies this`entries
      ensures Valid() && fresh(entries) && Now() == old(Now())
      ensures entries.Length == if old(entries.Length) == 0 then 16 else 2 * old(entries.Length)
    {
      hide Table, Partial, LiveCount, Items, Doubled, Stamped, StringHash;
      ghost var es := entries[..];
      var size := if entries.Length == 0 then 16 else entries.Length * 2;
      var table := new Slot[size](_ => UNUSED);
      StartCopy(es, table[..]);
      for i := 0 to entries.Length
        invariant entries == old(entries) && es == entries[..] && table.Length == size && fresh(table)
        invariant Partial(es, i, table[..])
      {
        if entries[i].key.Some? {
          FewLive(es, i, table[..]);
          var idx := FreeSlot(table, Home(entries[i].key.value, size));
          Copied(es, i, table[..], idx);
          table[idx] := entries[i];
        } else {
          Skipped(es, i, table[..]);
        }
      }
      EndCopy(es, count, nextSequence, table[..]);
      entries := table;
    }

    /** Room for one more key. */
    method Reserve()
      requires Valid()
      modifies this`entries
      ensures Valid() && (entries == old(entries) || fresh(entries)) && Now() == old(Now())
      ensures entries.Length >= 16 && count + 1 <= entries.Length * 3 / 4
    {
      hide Table, LiveCount, Items, Doubled, Stamped;
      RoomFor(entries[..], count, nextSequence);
      if count + 1 > entries.Length * 3 / 4 {
        Grow();
      }
      // the second test of slp_obj_hash_set, for a table without slots, never holds
      if entries.Length == 0 { assert false; }
    }

    /** A new key in slot `i`, with the next sequence number. */
    method Insert(i: nat, key: string, value: Value)
      requires Valid() && i < entries.Length && entries[i].key.None? && !InTable(entries[..], key)
      requires Unbroken(entries[..], key, Distance(Home(key, entries.Length), i, entries.Length))
      requires count + 1 <= entries.Length * 3 / 4
      modifies this`count, this`nextSequence, entries
      ensures Valid() && Now() == Put(old(Now()), key, value)
    {
      hide Sound, Unbroken, Items;
      Inserted(entries[..], count, nextSequence, i, key, value);
      entries[i] := Slot(Some(key), value, nextSequence + 1);
      nextSequence := nextSequence + 1;
      count := count + 1;
    }

    /** slp_obj_hash_set: the first tombstone on the way is used for a new key. */
    method Set(key: string, value: Value) returns (ok: bool)
      requires Valid()
      modifies this, entries
      ensures Valid() && (entries == old(entries) || fresh(entries)) && orderMode == old(orderMode)
      ensures ok && Now() == Put(old(Now()), key, value)
    {
      hide Sound, Table, LiveCount, Items, Doubled, Stamped, StringHash, Searching, Unbroken, Passed;
      Reserve();
      ghost var es := entries[..];
      var size := entries.Length;
      var home := Home(key, size);
      var idx := home;
      var tombstone := -1;
      StartSearch(es, key);
      label Ready:
      for scanned := 0 to size
        invariant unchanged@Ready(this) && entries[..] == es
        invariant idx == Probe(home, if scanned == size then 0 else scanned, size)
        invariant Searching(es, key, scanned, tombstone)
      {
        if entries[idx].key.None? {
          if entries[idx].value == Bool(true) {
            PassTombstone(es, key, scanned, tombstone);
            if tombstone == -1 { tombstone := idx; }
          } else {
            SearchEnds(es, key, count, nextSequence, scanned, tombstone);
            if tombstone != -1 { idx := tombstone; }
            Insert(idx, key, value);
            return true;
          }
        } else if entries[idx].key.value == key {
          Overwritten(es, count, nextSequence, idx, key, value, entries[idx].sequence, nextSequence);
          entries[idx] := entries[idx].(value := value);
          return true;
        } else {
          PassOther(es, key, scanned, tombstone);
        }
        idx := Next(idx, size);
      }
      SearchedAll(es, key, count, nextSequence, tombstone);
      Insert(tombstone, key, value);
      return true;
    }

    /** slp_obj_hash_get_raw. */
    method GetRaw(key: string) returns (value: Value)
      requires Valid()
      modifies this`nextSequence, entries
      ensures Valid() && value == ValueAt(old(Now()), key) && Now() == Touch(old(Now()), orderMode, key)
    {
      hide Table, LiveCount, Items, Doubled, Stamped, StringHash, Searching, Unbroken, Passed, Sound;
      if entries.Length == 0 {
        NoKeys(entries[..]);
        return Null;
      }
      ghost var es := entries[..];
      var size := entries.Length;
      var idx := Home(key, size);
      ghost var tombstone: int := -1;
      StartSearch(es, key);
      for i := 0 to size
        invariant unchanged(this) && entries[..] == es
        invariant idx == Probe(Home(key, size), if i == size then 0 else i, size)
        invariant Searching(es, key, i, tombstone)
      {
        if entries[idx].key.None? {
          if entries[idx].value == Bool(true) {
            PassTombstone(es, key, i, tombstone);
            if tombstone == -1 { tombstone := idx; }
          } else {
            SearchEnds(es, key, count, nextSequence, i, tombstone);
            return Null;
          }
        } else if entries[idx].key.value == key {
          if orderMode == 2 && entries[idx].value != Null {
            Overwritten(es, count, nextSequence, idx, key, entries[idx].value, nextSequence + 1, nextSequence + 1);
            nextSequence := nextSequence + 1;
            entries[idx] := entries[idx].(sequence := nextSequence);
          } else {
            Overwritten(es, count, nextSequence, idx, key, entries[idx].value, entries[idx].sequence, nextSequence);
          }
          return entries[idx].value;
        } else {
          PassOther(es, key, i, tombstone);
        }
        idx := Next(idx, size);
      }
      NotFound(es, key, tombstone);
      return Null;
    }

    /** slp_obj_hash_contains. */
    method Contains(key: string) returns (found: bool)
      requires Valid()
      ensures found == (key in Now().items)
    {
      hide Table, LiveCount, Items, Doubled, Stamped, StringHash, Searching, Unbroken, Passed, Sound;
      if entries.Length == 0 {
        NoKeys(entries[..]);
        return false;
      }
      ghost var es := entries[..];
      var size := entries.Length;
      var idx := Home(key, size);
      ghost var tombstone: int := -1;
      StartSearch(es, key);
      for i := 0 to size
        invariant idx == Probe(Home(key, size), if i == size then 0 else i, size)
        invariant Searching(es, key, i, tombstone)
      {
        if entries[idx].key.None? {
          if entries[idx].value != Bool(true) {
            SearchEnds(es, key, count, nextSequence, i, tombstone);
            return false;
          }
          PassTombstone(es, key, i, tombstone);
          if tombstone == -1 { tombstone := idx; }
        } else if entries[idx].key.value == key {
          assert Holds(es, idx, key);
          return true;
        } else {
          PassOther(es, key, i, tombstone);
        }
        idx := Next(idx, size);
      }
      NotFound(es, key, tombstone);
      return false;
    }

    /** slp_obj_hash_delete leaves a tombstone. */
    method Delete(key: string) returns (deleted: bool)
      requires Valid()
      modifies this`count, entries
      ensures Valid() && deleted == (key in old(Now()).items) && Now() == Drop(old(Now()), key)
      ensures !deleted ==> entries[..] == old(entries[..])
      ensures deleted ==> exists i :: Holds(old(entries[..]), i, key) && entries[..] == old(entries[..])[i := TOMBSTONE]
    {
      hide Table, LiveCount, Items, Doubled, Stamped, StringHash, Searching, Unbroken, Passed, Sound;
      if entries.Length == 0 {
        NoKeys(entries[..]);
        return false;
      }
      ghost var es := entries[..];
      var size := entries.Length;
      var idx := Home(key, size);
      ghost var tombstone: int := -1;
      StartSearch(es, key);
      for i := 0 to size
        invariant unchanged(this) && entries[..] == es
        invariant idx == Probe(Home(key, size), if i == size then 0 else i, size)
        invariant Searching(es, key, i, tombstone)
      {
        if entries[idx].key.None? {
          if entries[idx].value == Bool(true) {
            PassTombstone(es, key, i, tombstone);
            if tombstone == -1 { tombstone := idx; }
          } else {
            SearchEnds(es, key, count, nextSequence, i, tombstone);
            return false;
          }
        } else if entries[idx].key.value == key {
          assert Holds(es, idx, key);
          Buried(es, count, nextSequence, idx, key);
          entries[idx] := TOMBSTONE;
          count := count - 1;
          assert entries[..] == es[idx := TOMBSTONE];
          return true;
        } else {
          PassOther(es, key, i, tombstone);
        }
        idx := Next(idx, size);
      }
      NotFound(es, key, tombstone);
      return false;
    }

    /** slp_obj_hash_ordered_index: the slot with `ordinal` slots in front of it. */
    method OrderedIndex(ordinal: int) returns (index: int)
      requires Valid()
      ensures index == -1 <==> !(0 <= ordinal < count)
      ensures index != -1 ==> 0 <= index < entries.Length && entries[index].Live()
                              && RankOf(entries[..], orderMode, index) == ordinal
    {
      hide Table, LiveCount, Items, Doubled, Stamped, StringHash, RankOf, Precedes;
      if ordinal < 0 || ordinal >= count {
        return -1;
      }
      ghost var es := entries[..];
      ghost var goal := SlotOfRank(es, orderMode, nextSequence, ordinal);
      for candidate := 0 to entries.Length
        invariant goal >= candidate
      {
        if entries[candidate].key.None? { continue; }
        var rank := 0;
        for other := 0 to entries.Length
          invariant rank == CountBefore(es, orderMode, candidate, other)
        {
          if entries[other].key.None? || other == candidate {
            NotBefore(es, orderMode, other, candidate);
            continue;
          }
          if EntryPrecedes(other, candidate) {
            rank := rank + 1;
          }
        }
        CountIsRank(es, orderMode, candidate, entries.Length);
        if rank == ordinal {
          return candidate;
        }
      }
      assert false;
    }

    predicate EntryPrecedes(left: nat, right: nat)
      requires left < entries.Length && right < entries.Length && entries[left].Live() && entries[right].Live()
      reads this, entries
      ensures EntryPrecedes(left, right) == Precedes(entries[..], orderMode, left, right)
    {
      if orderMode != 0 then entries[left].sequence < entries[right].sequence
      else
        var a, b := Home(entries[left].key.value, entries.Length), Home(entries[right].key.value, entries.Length);
        if a != b then a < b else entries[left].sequence > entries[right].sequence
    }

    /** slp_obj_hash_visible_count: the keys whose value is not null. */
    method VisibleCount() returns (visible: nat)
      requires Valid()
      ensures visible == |Visible(Now().items)|
    {
      hide Items, LiveCount, Doubled, Stamped, Findable, Unique;
      visible := 0;
      ghost var es := entries[..];
      NoKeys(es[..0]);
      for i := 0 to entries.Length
        invariant visible == |Visible(Items(es[..i]))|
      {
        NextItem(es, i);
        NextVisible(Items(es[..i]), es[i]);
        if entries[i].key.Some? && entries[i].value != Null {
          visible := visible + 1;
        }
      }
      assert es[..entries.Length] == es;
    }
  }

  lemma FewLive(es: seq<Slot>, n: nat, t: seq<Slot>)
    requires n <= |es| && Partial(es, n, t)
    ensures LiveCount(t) <= |es|
  {
  }

  /** The probe loop of hash_grow: the first slot without a key. */
  method FreeSlot(table: array<Slot>, home: nat) returns (idx: nat)
    requires home < table.Length && LiveCount(table[..]) < table.Length
    ensures idx < table.Length && table[idx].key.None?
    ensures forall k | 0 <= k < Distance(home, idx, table.Length) :: table[Probe(home, k, table.Length)].Live()
  {
    AllLive(table[..]);
    ghost var free :| 0 <= free < table.Length && !table[..][free].Live();
    idx := home;
    ghost var n := 0;
    while table[idx].key.Some?
      invariant n <= Distance(home, free, table.Length) && idx == Probe(home, n, table.Length)
      invariant forall k | 0 <= k < n :: table[Probe(home, k, table.Length)].Live()
      decreases table.Length - n
    {
      assert idx != free;
      idx := Next(idx, table.Length);
      n := n + 1;
    }
  }
}
