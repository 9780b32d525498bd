/** Hashes with a removal policy: an ordered hash whose policy answers true exactly when
    it holds N keys is a least-recently-used cache of size N. */
module HashCache {
  import opened Values
  import opened HashSlots
  import opened HashOrder
  import opened HashTable
  import opened Ranking

  /** The keys from the eldest to the youngest, and their values. */
  datatype Cache = Cache(keys: seq<string>, values: map<string, Value>)

  /** The answer of the removal policy for a hash of the given size, its eldest key and
      that key's value; the closure itself changes nothing. */
  type Policy = (nat, string, Value) -> bool

  function Without(keys: seq<string>, key: string): (r: seq<string>)
    ensures forall k :: k in r <==> k in keys && k != key
  {
    if keys == [] then []
    else if keys[0] == key then Without(keys[1..], key)
    else [keys[0]] + Without(keys[1..], key)
  }

  /** Reading. */
  function Read(c: Cache, mode: nat, key: string): Cache {
    if mode == 2 && key in c.values && c.values[key] != Null then c.(keys := Without(c.keys, key) + [key]) else c
  }

  function Removed(c: Cache, key: string): Cache {
    Cache(Without(c.keys, key), c.values - {key})
  }

  function Added(c: Cache, key: string, value: Value): Cache {
    Cache(if key in c.values then c.keys else c.keys + [key], c.values[key := value])
  }

  /** Writing a new key asks the policy first; when it answers true the eldest key goes,
      and when there is none the new key is not stored either. */
  function Stored(c: Cache, mode: nat, policy: Option<Policy>, key: string, value: Value): Cache {
    if key in c.values || mode == 0 || policy.None? then Added(c, key, value)
    else
      var eldest := if c.keys == [] then key else c.keys[0];
      var eldestValue := if eldest in c.values then c.values[eldest] else Null;
      if !policy.value(|c.values|, eldest, eldestValue) then Added(c, key, value)
      else if c.keys == [] then c
      else Added(Removed(c, eldest), key, value)
  }

  function GetOr(c: Cache, key: string): Value {
    if key in c.values then c.values[key] else Null
  }

  ghost predicate Matches(v: View, values: map<string, Value>) {
    && v.items.Keys == values.Keys
    && (forall k | k in v.items :: values[k] == v.items[k].value && v.items[k].sequence <= v.next)
  }

  ghost predicate Lists(keys: seq<string>, values: map<string, Value>) {
    forall k :: k in keys <==> k in values
  }

  ghost predicate Rising(items: map<string, Item>, keys: seq<string>) {
    && (forall i | 0 <= i < |keys| :: keys[i] in items)
    && (forall i, j | 0 <= i < j < |keys| :: items[keys[i]].sequence < items[keys[j]].sequence)
  }

  /** The cache lists the keys of the hash by rising sequence numbers. */
  ghost predicate Represents(v: View, c: Cache) {
    Matches(v, c.values) && Lists(c.keys, c.values) && Rising(v.items, c.keys)
  }

  // ----- refinement, one operation at a time -----

  /** Leaving a key out keeps the order, and the sequence number of that key no longer
      matters. */
  lemma {:induction false} WithoutRising(items: map<string, Item>, keys: seq<string>, key: string, items': map<string, Item>)
    requires Rising(items, keys)
    requires forall k | k in items && k != key :: k in items' && items'[k] == items[k]
    ensures Rising(items', Without(keys, key))
  {
    if keys != [] {
      var r := Without(keys[1..], key);
      WithoutRising(items, keys[1..], key, items');
      forall j | 0 <= j < |r|
        ensures r[j] in items && r[j] != key && items[keys[0]].sequence < items[r[j]].sequence
      {
        assert r[j] in r;
        var i :| 0 <= i < |keys| - 1 && keys[1..][i] == r[j];
        assert keys[i + 1] == r[j];
      }
    }
  }

  lemma RisingAtEnd(items: map<string, Item>, keys: seq<string>, key: string)
    requires Rising(items, keys) && key in items
    requires forall i | 0 <= i < |keys| :: items[keys[i]].sequence < items[key].sequence
    ensures Rising(items, keys + [key])
  {
  }

  /** The key moves to, or appears at, the young end. */
  lemma Younger(v: View, c: Cache, key: string, value: Value)
    requires Represents(v, c)
    ensures Represents(View(v.items[key := Item(value, v.next + 1)], v.next + 1),
                       Cache(Without(c.keys, key) + [key], c.values[key := value]))
  {
    var items := v.items[key := Item(value, v.next + 1)];
    var r := Without(c.keys, key);
    WithoutRising(v.items, c.keys, key, items);
    forall i | 0 <= i < |r| ensures items[r[i]].sequence < v.next + 1 {
      assert r[i] in r;
    }
    hide Without, Rising, Lists, Matches;
    RisingAtEnd(items, r, key);
    ListsAtEnd(c.keys, c.values, r, key, value);
    MatchesItem(v, c.values, key, Item(value, v.next + 1), v.next + 1);
  }

  lemma ListsAtEnd(keys: seq<string>, values: map<string, Value>, r: seq<string>, key: string, value: Value)
    requires Lists(keys, values) && forall k :: k in r <==> k in keys && k != key
    ensures Lists(r + [key], values[key := value])
  {
  }

  lemma MatchesItem(v: View, values: map<string, Value>, key: string, item: Item, next: nat)
    requires Matches(v, values) && item.sequence <= next && v.next <= next
    ensures Matches(View(v.items[key := item], next), values[key := item.value])
  {
  }

  lemma SameLists(keys: seq<string>, values: map<string, Value>, key: string, value: Value)
    requires Lists(keys, values) && key in values
    ensures Lists(keys, values[key := value])
  {
  }

  lemma SameRising(items: map<string, Item>, keys: seq<string>, key: string, value: Value)
    requires Rising(items, keys) && key in items
    ensures Rising(items[key := Item(value, items[key].sequence)], keys)
  {
  }

  lemma Rewritten(m: map<string, Value>, key: string)
    requires key in m
    ensures m[key := m[key]] == m
  {
  }

  lemma ReadRefines(v: View, c: Cache, mode: nat, key: string)
    requires Represents(v, c)
    ensures Represents(Touch(v, mode, key), Read(c, mode, key))
    ensures ValueAt(v, key) == GetOr(c, key)
  {
    hide Rising, Lists, Without;
    assert ValueAt(v, key) == GetOr(c, key) && (key in v.items <==> key in c.values);
    if mode == 2 && key in v.items && v.items[key].value != Null {
      Younger(v, c, key, v.items[key].value);
      Rewritten(c.values, key);
    }
  }

  lemma {:induction false} WithoutAbsent(keys: seq<string>, key: string)
    requires key !in keys
    ensures Without(keys, key) == keys
  {
    if keys != [] { WithoutAbsent(keys[1..], key); }
  }

  lemma KeyListed(v: View, c: Cache, key: string)
    requires Matches(v, c.values) && Lists(c.keys, c.values)
    ensures key in v.items <==> key in c.keys
    ensures key in v.items <==> key in c.values
    ensures key in v.items ==> v.items[key].sequence <= v.next
  {
  }

  lemma AddRefines(v: View, c: Cache, key: string, value: Value)
    requires Represents(v, c)
    ensures Represents(Put(v, key, value), Added(c, key, value))
  {
    hide Without, Rising, Lists, Matches;
    KeyListed(v, c, key);
    if key !in v.items {
      WithoutAbsent(c.keys, key);
      Younger(v, c, key, value);
    } else {
      MatchesItem(v, c.values, key, Item(value, v.items[key].sequence), v.next);
      SameLists(c.keys, c.values, key, value);
      SameRising(v.items, c.keys, key, value);
    }
  }

  lemma RemoveRefines(v: View, c: Cache, key: string)
    requires Represents(v, c)
    ensures Represents(Drop(v, key), Removed(c, key))
  {
    WithoutRising(v.items, c.keys, key, v.items - {key});
    hide Rising;
  }

  // ----- the eldest key -----

  /** In a non-empty ordered hash the slot of rank 0 holds the first key. */
  lemma EldestIsFirst(es: seq<Slot>, count: nat, next: nat, mode: nat, i: nat, c: Cache)
    requires Sound(es, count, next) && mode != 0 && Represents(View(Items(es), next), c)
    requires i < |es| && es[i].Live() && RankOf(es, mode, i) == 0
    ensures c.keys != [] && c.keys[0] in c.values && es[i].key == Some(c.keys[0]) && es[i].value == c.values[c.keys[0]]
  {
    hide Findable, LiveCount, Capacity;
    var key := es[i].key.value;
    assert Holds(es, i, key);
    assert key in Items(es) && key in c.keys;
    var first := c.keys[0];
    if key != first {
      var j := SlotWith(es, first);
      assert Holds(es, j, first);
      var p :| 0 <= p < |c.keys| && c.keys[p] == key;
      assert Items(es)[first].sequence < Items(es)[key].sequence;
      PrecededHasRank(es, mode, i, j);
    }
  }

  /** A slot that another one precedes does not have rank 0. */
  lemma PrecededHasRank(es: seq<Slot>, mode: nat, i: nat, j: nat)
    requires Precedes(es, mode, j, i)
    ensures RankOf(es, mode, i) > 0
  {
    assert j in Below(Order(es, mode), LiveSlots(es), i);
  }

  lemma Sizes(es: seq<Slot>, count: nat, next: nat, c: Cache)
    requires Sound(es, count, next) && Represents(View(Items(es), next), c)
    ensures |c.values| == count
    ensures count == 0 <==> c.keys == []
  {
    ItemCount(es);
    assert c.values.Keys == Items(es).Keys;
    assert |c.values| == |c.values.Keys|;
    if c.keys == [] {
      assert c.values == map[];
    } else {
      assert c.keys[0] in c.keys;
      assert c.keys[0] in c.values;
    }
  }

  // ----- the operations of the virtual machine -----

  /** hash_set_canonical. */
  method SetCanonical(h: Hash, policy: Option<Policy>, key: string, value: Value, ghost c: Cache) returns (ok: bool)
    requires h.Valid() && Represents(h.Now(), c)
    modifies h, h.entries
    ensures h.Valid() && (h.entries == old(h.entries) || fresh(h.entries)) && h.orderMode == old(h.orderMode)
    ensures ok && Represents(h.Now(), Stored(c, h.orderMode, policy, key, value))
  {
    hide Represents, Sound, Stored, Added, Removed, Items, RankOf;
    var present := h.Contains(key);
    InBoth(h.Now(), c, key);
    if present || h.orderMode == 0 || policy.None? {
      AddRefines(h.Now(), c, key, value);
      StoredPlain(c, h.orderMode, policy, key, value);
      ok := h.Set(key, value);
      return;
    }
    Sizes(h.entries[..], h.count, h.nextSequence, c);
    var index := h.OrderedIndex(0);
    var eldestKey, eldestValue := key, Null;
    if index >= 0 {
      EldestIsFirst(h.entries[..], h.count, h.nextSequence, h.orderMode, index, c);
      eldestKey, eldestValue := h.entries[index].key.value, h.entries[index].value;
    }
    StoredEvicting(c, h.orderMode, policy, key, value, eldestKey, eldestValue);
    AddRefines(h.Now(), c, key, value);
    if policy.value(h.count, eldestKey, eldestValue) {
      if index < 0 {
        return true;
      }
      RemoveRefines(h.Now(), c, eldestKey);
      var deleted := h.Delete(eldestKey);
      AddRefines(h.Now(), Removed(c, eldestKey), key, value);
    }
    ok := h.Set(key, value);
  }

  lemma InBoth(v: View, c: Cache, key: string)
    requires Represents(v, c)
    ensures key in v.items <==> key in c.values
  {
  }

  lemma StoredPlain(c: Cache, mode: nat, policy: Option<Policy>, key: string, value: Value)
    requires key in c.values || mode == 0 || policy.None?
    ensures Stored(c, mode, policy, key, value) == Added(c, key, value)
  {
  }

  lemma StoredEvicting(c: Cache, mode: nat, policy: Option<Policy>, key: string, value: Value,
                       eldest: string, eldestValue: Value)
    requires key !in c.values && mode != 0 && policy.Some?
    requires if c.keys == [] then eldest == key && eldestValue == Null
             else eldest == c.keys[0] && eldest in c.values && eldestValue == c.values[eldest]
    ensures Stored(c, mode, policy, key, value) ==
            if !policy.value(|c.values|, eldest, eldestValue) then Added(c, key, value)
            else if c.keys == [] then c
            else Added(Removed(c, eldest), key, value)
  {
  }

  /** What a read through slp_vm_hash_get leaves and returns. */
  function Fetched(c: Cache, mode: nat, miss: Option<string -> Value>, policy: Option<Policy>, key: string): (Cache, Value) {
    var value := GetOr(c, key);
    if value != Null || miss.None? then (Read(c, mode, key), value)
    else (Stored(c, mode, policy, key, miss.value(key)), miss.value(key))
  }

  /** slp_vm_hash_get: a null result asks the miss policy and stores its answer. */
  method Fetch(h: Hash, miss: Option<string -> Value>, policy: Option<Policy>, key: string, ghost c: Cache)
    returns (value: Value)
    requires h.Valid() && Represents(h.Now(), c)
    modifies h, h.entries
    ensures h.Valid() && h.orderMode == old(h.orderMode)
    ensures var (after, v) := Fetched(c, h.orderMode, miss, policy, key); Represents(h.Now(), after) && value == v
  {
    hide Represents, Sound, Stored, Items;
    ReadRefines(h.Now(), c, h.orderMode, key);
    value := h.GetRaw(key);
    if value != Null || miss.None? {
      return;
    }
    value := miss.value(key);
    var ok := SetCanonical(h, policy, key, value, c);
  }

  /** A read that finds nothing asks the miss policy, and its answer is stored: a later read
      finds it without asking. Nothing is stored only if the removal policy wants to remove
      something from an empty hash. Every other key keeps its value, but for the eldest one
      when the removal policy asks for it. */
  lemma MissStored(c: Cache, mode: nat, miss: Option<string -> Value>, policy: Option<Policy>, key: string,
                   later: Option<string -> Value>, laterPolicy: Option<Policy>)
    requires Lists(c.keys, c.values)
    ensures var (after, v) := Fetched(c, mode, miss, policy, key);
            var was := if key in c.values then c.values[key] else Null;
            var asked := key !in c.values && mode != 0 && policy.Some?;
            if was != Null || miss.None? then v == was && after.values == c.values
            else
              && v == miss.value(key)
              && (if asked && c.values == map[] && policy.value(0, key, Null) then after == c
                  else key in after.values && after.values[key] == v
                       && (v != Null ==> Fetched(after, mode, later, laterPolicy, key).1 == v))
              && (forall k | k != key && k in after.values :: k in c.values && after.values[k] == c.values[k])
              && (forall k | k in c.values && k !in after.values ::
                    asked && k == c.keys[0] && policy.value(|c.values|, k, c.values[k]))
  {
    hide Without;
    Size(c);
    if c.keys != [] { assert c.keys[0] in c.values; } else { assert c.values == map[]; }
  }

  // ----- a cache of at most N keys -----

  function AtLeast(limit: nat): Policy { (n, key, value) => n >= limit }

  datatype Op = Get(key: string) | Store(key: string, value: Value) | Remove(key: string)

  function After(c: Cache, limit: nat, op: Op): Cache {
    match op
    case Get(key) => Read(c, 2, key)
    case Store(key, value) => Stored(c, 2, Some(AtLeast(limit)), key, value)
    case Remove(key) => Removed(c, key)
  }

  function Replay(limit: nat, ops: seq<Op>): Cache {
    if ops == [] then Cache([], map[]) else After(Replay(limit, ops[..|ops| - 1]), limit, ops[|ops| - 1])
  }

  /** A new hash holds the cache of no operations. */
  lemma EmptyCache(limit: nat)
    ensures Represents(View(map[], 0), Replay(limit, []))
  {
  }

  /** Each operation on the table keeps it the cache of all operations so far, so what
      holds of the replayed cache holds of the table. */
  method Perform(h: Hash, limit: nat, op: Op, ghost ops: seq<Op>)
    requires h.Valid() && h.orderMode == 2 && Represents(h.Now(), Replay(limit, ops))
    modifies h, h.entries
    ensures h.Valid() && h.orderMode == 2 && (h.entries == old(h.entries) || fresh(h.entries))
    ensures Represents(h.Now(), Replay(limit, ops + [op]))
  {
    hide Represents, Sound, Stored, Items, Replay;
    ghost var c := Replay(limit, ops);
    ReplayStep(limit, ops, op);
    match op
    case Get(key) =>
      ReadRefines(h.Now(), c, 2, key);
      var value := h.GetRaw(key);
    case Store(key, value) =>
      var ok := SetCanonical(h, Some(AtLeast(limit)), key, value, c);
    case Remove(key) =>
      RemoveRefines(h.Now(), c, key);
      var deleted := h.Delete(key);
  }

  lemma ReplayStep(limit: nat, ops: seq<Op>, op: Op)
    ensures Replay(limit, ops + [op]) == After(Replay(limit, ops), limit, op)
  {
    assert (ops + [op])[..|ops|] == ops;
  }

  /** A read that finds a value other than null, or the insertion of a new key. */
  predicate Uses(c: Cache, op: Op, key: string) {
    op.key == key &&
    ((op.Get? && key in c.values && c.values[key] != Null) || (op.Store? && key !in c.values))
  }

  /** The number of operations up to and with the last use of `key`. */
  function LastUse(limit: nat, ops: seq<Op>, key: string): (t: nat)
    ensures t <= |ops|
  {
    if ops == [] then 0
    else if Uses(Replay(limit, ops[..|ops| - 1]), ops[|ops| - 1], key) then |ops|
    else LastUse(limit, ops[..|ops| - 1], key)
  }

  ghost predicate ByLastUse(limit: nat, ops: seq<Op>, keys: seq<string>) {
    forall i, j | 0 <= i < j < |keys| :: LastUse(limit, ops, keys[i]) < LastUse(limit, ops, keys[j])
  }

  lemma {:induction false} WithoutKeepsUse(limit: nat, ops: seq<Op>, keys: seq<string>, key: string)
    requires ByLastUse(limit, ops, keys)
    ensures ByLastUse(limit, ops, Without(keys, key))
  {
    if keys != [] {
      WithoutKeepsUse(limit, ops, keys[1..], key);
      var r := Without(keys[1..], key);
      forall j | 0 <= j < |r| ensures LastUse(limit, ops, keys[0]) < LastUse(limit, ops, r[j]) {
        assert r[j] in keys[1..];
      }
    }
  }

  lemma UseAfter(limit: nat, ops: seq<Op>, key: string)
    requires ops != []
    ensures var before := ops[..|ops| - 1];
            LastUse(limit, ops, key) ==
            if Uses(Replay(limit, before), ops[|ops| - 1], key) then |ops| else LastUse(limit, before, key)
    ensures Replay(limit, ops) == After(Replay(limit, ops[..|ops| - 1]), limit, ops[|ops| - 1])
  {
  }

  /** The last operation uses none of `keys`. */
  lemma Stayed(limit: nat, ops: seq<Op>, keys: seq<string>)
    requires ops != [] && ByLastUse(limit, ops[..|ops| - 1], keys)
    requires forall k | k in keys :: !Uses(Replay(limit, ops[..|ops| - 1]), ops[|ops| - 1], k)
    ensures ByLastUse(limit, ops, keys)
  {
    hide Replay, LastUse, Uses;
    forall k | k in keys ensures LastUse(limit, ops, k) == LastUse(limit, ops[..|ops| - 1], k) {
      UseAfter(limit, ops, k);
    }
  }

  /** The last operation uses `key`, which goes to the end. */
  lemma Moved(limit: nat, ops: seq<Op>, keys: seq<string>, key: string)
    requires ops != [] && ByLastUse(limit, ops[..|ops| - 1], keys) && key !in keys
    requires Uses(Replay(limit, ops[..|ops| - 1]), ops[|ops| - 1], key)
    ensures ByLastUse(limit, ops, keys + [key])
  {
    hide Replay, LastUse;
    UseAfter(limit, ops, key);
    Stayed(limit, ops, keys);
    forall i | 0 <= i < |keys| ensures LastUse(limit, ops, keys[i]) < LastUse(limit, ops, key) {
      UseAfter(limit, ops, keys[i]);
      assert keys[i] in keys;
    }
  }

  ghost predicate Ordered(limit: nat, ops: seq<Op>, c: Cache) {
    && |c.values| <= limit
    && (forall k :: k in c.keys <==> k in c.values)
    && ByLastUse(limit, ops, c.keys)
  }

  lemma Size(c: Cache)
    requires forall k :: k in c.keys <==> k in c.values
    ensures c.keys == [] <==> |c.values| == 0
  {
    if c.keys == [] { assert c.values == map[]; } else { assert c.keys[0] in c.values; }
  }

  lemma Fewer(m: map<string, Value>, key: string)
    ensures |m - {key}| == |m| - (if key in m then 1 else 0)
  {
    assert (m - {key}).Keys == m.Keys - {key};
  }

  lemma More(m: map<string, Value>, key: string, value: Value)
    ensures |m[key := value]| == |m| + (if key in m then 0 else 1)
  {
    assert m[key := value].Keys == m.Keys + {key};
  }

  lemma StoreKeeps(limit: nat, ops: seq<Op>, c: Cache, key: string, value: Value)
    requires limit >= 1 && ops != [] && ops[|ops| - 1] == Store(key, value) && c == Replay(limit, ops[..|ops| - 1])
    requires Ordered(limit, ops[..|ops| - 1], c)
    ensures Ordered(limit, ops, Stored(c, 2, Some(AtLeast(limit)), key, value))
  {
    hide Replay, LastUse, ByLastUse;
    Size(c);
    if key in c.values {
      Stayed(limit, ops, c.keys);
      More(c.values, key, value);
    } else if |c.values| < limit {
      Moved(limit, ops, c.keys, key);
      More(c.values, key, value);
    } else {
      var first := c.keys[0];
      assert first in c.values;
      var r := Removed(c, first);
      WithoutKeepsUse(limit, ops[..|ops| - 1], c.keys, first);
      Moved(limit, ops, r.keys, key);
      Fewer(c.values, first);
      More(r.values, key, value);
    }
  }

  /** Least recently used, over every sequence of operations: the keys are listed by
      their last use, the list holds exactly the stored keys, and no more than `limit`. */
  lemma {:induction false} LeastRecentlyUsed(limit: nat, ops: seq<Op>)
    requires limit >= 1
    ensures Ordered(limit, ops, Replay(limit, ops))
  {
    if ops != [] {
      var before := ops[..|ops| - 1];
      var op := ops[|ops| - 1];
      LeastRecentlyUsed(limit, before);
      var c := Replay(limit, before);
      UseAfter(limit, ops, op.key);
      hide Replay, LastUse, ByLastUse;
      match op
      case Get(key) =>
        if Uses(c, op, key) {
          WithoutKeepsUse(limit, before, c.keys, key);
          Moved(limit, ops, Without(c.keys, key), key);
        } else {
          Stayed(limit, ops, c.keys);
        }
      case Remove(key) =>
        WithoutKeepsUse(limit, before, c.keys, key);
        Stayed(limit, ops, Without(c.keys, key));
        Fewer(c.values, key);
      case Store(key, value) =>
        StoreKeeps(limit, ops, c, key, value);
    }
  }

  /** A full cache gives up the key whose last use lies furthest back, and only it. */
  lemma EvictsLeastRecent(limit: nat, ops: seq<Op>, key: string, value: Value)
    requires limit >= 1 && var c := Replay(limit, ops); key !in c.values && |c.values| == limit
    ensures var c := Replay(limit, ops);
            var after := Replay(limit, ops + [Store(key, value)]);
            exists gone :: gone in c.values && gone != key
              && after.values == (c.values - {gone})[key := value]
              && (forall k | k in c.values && k != gone :: LastUse(limit, ops, gone) < LastUse(limit, ops, k))
  {
    LeastRecentlyUsed(limit, ops);
    var all := ops + [Store(key, value)];
    assert all[..|all| - 1] == ops;
    UseAfter(limit, all, key);
    var c := Replay(limit, ops);
    hide Replay, LastUse;
    Size(c);
    var gone := c.keys[0];
    assert gone in c.values;
    forall k | k in c.values && k != gone ensures LastUse(limit, ops, gone) < LastUse(limit, ops, k) {
      var i :| 0 <= i < |c.keys| && c.keys[i] == k;
    }
  }
}
