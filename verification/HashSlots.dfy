/** The slots of an open-addressing table with tombstones, and the finite map they
    stand for. */
module HashSlots {
  import opened Values
  import opened Probing

  const FIRST_CAPACITY := 16

  /** A slot without a key is a tombstone when its value is true, and was never used
      otherwise. */
  datatype Slot = Slot(key: Option<string>, value: Value, sequence: nat) {
    predicate Live() { key.Some? }
    predicate Tombstone() { key.None? && value == Bool(true) }
    predicate NeverUsed() { key.None? && value != Bool(true) }
  }

  const UNUSED := Slot(None, Null, 0)
  const TOMBSTONE := Slot(None, Bool(true), 0)

  datatype Item = Item(value: Value, sequence: nat)

  ghost predicate Holds(es: seq<Slot>, i: int, key: string) {
    0 <= i < |es| && es[i].key == Some(key)
  }

  /** No key is stored twice. */
  ghost predicate Unique(es: seq<Slot>) {
    forall i, j, key | Holds(es, i, key) && Holds(es, j, key) :: i == j
  }

  /** None of the first `n` slots on the way from the key's home was never used. */
  ghost predicate Unbroken(es: seq<Slot>, key: string, n: nat)
    requires |es| > 0 && n <= |es|
  {
    forall k | 0 <= k < n :: !es[Probe(Home(key, |es|), k, |es|)].NeverUsed()
  }

  /** Every key is found by probing from its home. */
  ghost predicate Findable(es: seq<Slot>) {
    forall i, key | Holds(es, i, key) :: Unbroken(es, key, Distance(Home(key, |es|), i, |es|))
  }

  ghost predicate Table(es: seq<Slot>) { Unique(es) && Findable(es) }

  function LiveCount(es: seq<Slot>): (n: nat)
    ensures n <= |es|
  {
    if es == [] then 0 else LiveCount(es[..|es| - 1]) + (if es[|es| - 1].Live() then 1 else 0)
  }

  ghost predicate InTable(es: seq<Slot>, key: string) {
    exists i :: Holds(es, i, key)
  }

  ghost function SlotWith(es: seq<Slot>, key: string): (i: nat)
    requires InTable(es, key)
    ensures Holds(es, i, key)
  {
    var i :| Holds(es, i, key); i
  }

  ghost function KeysOf(es: seq<Slot>): (r: set<string>)
    ensures forall key :: key in r <==> InTable(es, key)
  {
    var r := set i | 0 <= i < |es| && es[i].Live() && Holds(es, i, es[i].key.value) :: es[i].key.value;
    assert forall i, key :: Holds(es, i, key) ==> es[i].Live() && key in r;
    r
  }

  /** The map the slots stand for. */
  ghost function Items(es: seq<Slot>): (m: map<string, Item>)
    ensures forall key :: key in m <==> InTable(es, key)
    ensures Unique(es) ==> forall i, key | Holds(es, i, key) :: key in m && m[key] == Item(es[i].value, es[i].sequence)
  {
    map key | key in KeysOf(es) :: Item(es[SlotWith(es, key)].value, es[SlotWith(es, key)].sequence)
  }

  lemma ItemsAre(es: seq<Slot>, m: map<string, Item>)
    requires Unique(es)
    requires forall i, key | Holds(es, i, key) :: key in m && m[key] == Item(es[i].value, es[i].sequence)
    requires forall key | key in m :: InTable(es, key)
    ensures Items(es) == m
  {
    forall key | key in m ensures m[key] == Items(es)[key] {
      assert Holds(es, SlotWith(es, key), key);
    }
  }

  // ----- live slots -----

  lemma {:induction false} LiveUpdate(es: seq<Slot>, i: nat, s: Slot)
    requires i < |es|
    ensures LiveCount(es[i := s]) == LiveCount(es) - (if es[i].Live() then 1 else 0) + (if s.Live() then 1 else 0)
  {
    var last := |es| - 1;
    if i < last {
      LiveUpdate(es[..last], i, s);
      assert es[i := s][..last] == es[..last][i := s];
    } else {
      assert es[i := s][..last] == es[..last];
    }
  }

  lemma {:induction false} AllLive(es: seq<Slot>)
    requires LiveCount(es) < |es|
    ensures exists i :: 0 <= i < |es| && !es[i].Live()
  {
    var last := |es| - 1;
    if es[last].Live() {
      AllLive(es[..last]);
      var i :| 0 <= i < last && !es[..last][i].Live();
      assert !es[i].Live();
    }
  }

  lemma {:induction false} NoneLive(es: seq<Slot>)
    requires forall i | 0 <= i < |es| :: !es[i].Live()
    ensures LiveCount(es) == 0
  {
    if es != [] {
      NoneLive(es[..|es| - 1]);
    }
  }

  /** The map has one key for each live slot. */
  lemma {:induction false} ItemCount(es: seq<Slot>)
    requires Unique(es)
    ensures |Items(es)| == LiveCount(es)
  {
    KeyCount(es);
    assert Items(es).Keys == KeysOf(es);
  }

  lemma {:induction false} KeyCount(es: seq<Slot>)
    requires Unique(es)
    ensures |KeysOf(es)| == LiveCount(es)
  {
    if es == [] {
      assert KeysOf(es) == {};
    } else {
      var last := |es| - 1;
      var front := es[..last];
      assert forall i, key :: Holds(front, i, key) <==> Holds(es, i, key) && i < last;
      KeyCount(front);
      if es[last].Live() {
        var key := es[last].key.value;
        assert Holds(es, last, key);
        assert !InTable(front, key);
        forall k ensures k in KeysOf(es) <==> k in KeysOf(front) + {key} {
          if InTable(front, k) { assert Holds(es, SlotWith(front, k), k); }
        }
        assert KeysOf(es) == KeysOf(front) + {key};
      } else {
        forall k ensures k in KeysOf(es) <==> k in KeysOf(front) {
          if InTable(front, k) { assert Holds(es, SlotWith(front, k), k); }
        }
        assert KeysOf(es) == KeysOf(front);
      }
    }
  }

  // ----- searching -----

  /** The first `n` slots from the key's home are used and hold other keys. */
  ghost predicate Passed(es: seq<Slot>, key: string, n: nat)
    requires |es| > 0 && n <= |es|
  {
    forall k | 0 <= k < n ::
      var s := es[Probe(Home(key, |es|), k, |es|)]; !s.NeverUsed() && s.key != Some(key)
  }

  /** A search may stop at a slot that was never used. */
  lemma StopsAtUnused(es: seq<Slot>, key: string, n: nat)
    requires Table(es) && |es| > 0 && n < |es| && Passed(es, key, n)
    requires es[Probe(Home(key, |es|), n, |es|)].NeverUsed()
    ensures !InTable(es, key)
  {
    if InTable(es, key) {
      var i := SlotWith(es, key);
    }
  }

  /** A search that has seen every slot has seen the key if it is there. */
  lemma StopsAfterAll(es: seq<Slot>, key: string)
    requires |es| > 0 && Passed(es, key, |es|)
    ensures !InTable(es, key)
  {
    if InTable(es, key) {
      var d := Distance(Home(key, |es|), SlotWith(es, key), |es|);
    }
  }

  // ----- changing one slot -----

  /** Any change but one that makes a slot never used keeps unbroken paths. */
  lemma StillUnbroken(es: seq<Slot>, i: nat, s: Slot, key: string, n: nat)
    requires i < |es| && !s.NeverUsed() && n <= |es| && Unbroken(es, key, n)
    ensures Unbroken(es[i := s], key, n)
  {
  }

  /** Storing a new key in a free slot at the end of an unbroken path. */
  lemma StoreNew(es: seq<Slot>, i: nat, key: string, item: Item)
    requires Table(es) && !InTable(es, key) && i < |es| && !es[i].Live()
    requires Unbroken(es, key, Distance(Home(key, |es|), i, |es|))
    ensures var es' := es[i := Slot(Some(key), item.value, item.sequence)];
            Table(es') && Items(es') == Items(es)[key := item]
  {
    var s := Slot(Some(key), item.value, item.sequence);
    var es' := es[i := s];
    forall j, k | Holds(es', j, k)
      ensures Holds(es, j, k) || (j == i && k == key)
      ensures Unbroken(es', k, Distance(Home(k, |es'|), j, |es'|))
    {
      StillUnbroken(es, i, s, k, Distance(Home(k, |es|), j, |es|));
    }
    assert Holds(es', i, key);
    forall k ensures k in Items(es') <==> k in Items(es)[key := item] {
      if InTable(es, k) { assert Holds(es', SlotWith(es, k), k); }
    }
    forall k | k in Items(es') ensures Items(es')[k] == Items(es)[key := item][k] {
      var j := SlotWith(es', k);
      assert Holds(es, j, k) || k == key;
    }
  }

  /** Overwriting the value or the sequence number of a live slot. */
  lemma StoreOver(es: seq<Slot>, i: nat, key: string, item: Item)
    requires Table(es) && Holds(es, i, key)
    ensures var es' := es[i := Slot(Some(key), item.value, item.sequence)];
            Table(es') && Items(es') == Items(es)[key := item]
  {
    var s := Slot(Some(key), item.value, item.sequence);
    var es' := es[i := s];
    forall j, k
      ensures Holds(es', j, k) <==> Holds(es, j, k)
    {
    }
    forall j, k | Holds(es', j, k)
      ensures Unbroken(es', k, Distance(Home(k, |es'|), j, |es'|))
    {
      StillUnbroken(es, i, s, k, Distance(Home(k, |es|), j, |es|));
    }
    forall k | k in Items(es') ensures Items(es')[k] == Items(es)[key := item][k] {
      var j := SlotWith(es', k);
      assert Holds(es, j, k);
    }
    forall k | k in Items(es) ensures k in Items(es') {
      assert Holds(es', SlotWith(es, k), k);
    }
    assert Holds(es', i, key);
  }

  /** Turning a live slot into a tombstone. */
  lemma Bury(es: seq<Slot>, i: nat, key: string)
    requires Table(es) && Holds(es, i, key)
    ensures Table(es[i := TOMBSTONE]) && Items(es[i := TOMBSTONE]) == Items(es) - {key}
  {
    hide Items, Unbroken;
    var es' := es[i := TOMBSTONE];
    forall j, k | Holds(es', j, k)
      ensures Holds(es, j, k) && k != key
      ensures Unbroken(es', k, Distance(Home(k, |es'|), j, |es'|))
    {
      assert Holds(es, j, k);
      StillUnbroken(es, i, TOMBSTONE, k, Distance(Home(k, |es|), j, |es|));
    }
    forall k | k in Items(es) && k != key ensures InTable(es', k) {
      assert Holds(es', SlotWith(es, k), k);
    }
    ItemsAre(es', Items(es) - {key});
  }

  // ----- moving a table into a larger one -----

  lemma EmptyTable(es: seq<Slot>)
    requires forall i | 0 <= i < |es| :: es[i] == UNUSED
    ensures Table(es) && Items(es) == map[] && LiveCount(es) == 0
  {
    NoneLive(es);
    assert forall i, key :: !Holds(es, i, key);
  }

  /** The prefix of a table grows by one slot. */
  lemma NextItem(es: seq<Slot>, n: nat)
    requires Unique(es) && n < |es|
    ensures Unique(es[..n]) && Unique(es[..n + 1])
    ensures es[n].Live() ==> !InTable(es[..n], es[n].key.value)
    ensures Items(es[..n + 1]) ==
            if es[n].Live() then Items(es[..n])[es[n].key.value := Item(es[n].value, es[n].sequence)] else Items(es[..n])
    ensures LiveCount(es[..n + 1]) == LiveCount(es[..n]) + (if es[n].Live() then 1 else 0)
  {
    hide Items, LiveCount;
    var a, b := es[..n], es[..n + 1];
    forall i, k ensures Holds(a, i, k) <==> Holds(es, i, k) && i < n {}
    forall i, k ensures Holds(b, i, k) <==> Holds(es, i, k) && i <= n {}
    assert Unique(a) && Unique(b);
    var m := if es[n].Live() then Items(a)[es[n].key.value := Item(es[n].value, es[n].sequence)] else Items(a);
    if es[n].Live() {
      assert Holds(b, n, es[n].key.value);
      assert !InTable(a, es[n].key.value);
    }
    forall i, k | Holds(b, i, k) ensures k in m && m[k] == Item(b[i].value, b[i].sequence) {
      if i < n { assert Holds(a, i, k); }
    }
    forall k | k in Items(a) ensures InTable(b, k) {
      assert Holds(b, SlotWith(a, k), k);
    }
    ItemsAre(b, m);
    NextCount(es, n);
  }

  lemma NextCount(es: seq<Slot>, n: nat)
    requires n < |es|
    ensures LiveCount(es[..n + 1]) == LiveCount(es[..n]) + (if es[n].Live() then 1 else 0)
  {
    assert es[..n + 1][..n] == es[..n] && es[..n + 1][n] == es[n];
  }
}
