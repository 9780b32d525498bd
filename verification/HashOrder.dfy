/** The iteration orders of a hash: insertion order and access order compare sequence
    numbers; the unordered mode compares home slots, the youngest first. */
module HashOrder {
  import opened Probing
  import opened HashSlots
  import opened Ranking

  /** Live sequence numbers are distinct and were given out. */
  ghost predicate Stamped(es: seq<Slot>, next: nat) {
    && (forall i | 0 <= i < |es| && es[i].Live() :: 1 <= es[i].sequence <= next)
    && (forall i, j | 0 <= i < |es| && 0 <= j < |es| && es[i].Live() && es[j].Live() && i != j ::
          es[i].sequence != es[j].sequence)
  }

  /** hash_entry_precedes. */
  predicate Precedes(es: seq<Slot>, mode: nat, left: nat, right: nat) {
    && left < |es| && right < |es| && es[left].Live() && es[right].Live()
    && if mode != 0 then es[left].sequence < es[right].sequence
       else
         var a, b := Home(es[left].key.value, |es|), Home(es[right].key.value, |es|);
         if a != b then a < b else es[left].sequence > es[right].sequence
  }

  ghost function LiveSlots(es: seq<Slot>): set<nat> {
    set i: nat | i < |es| && es[i].Live()
  }

  ghost function Order(es: seq<Slot>, mode: nat): (nat, nat) -> bool {
    (l: nat, r: nat) => Precedes(es, mode, l, r)
  }

  ghost function RankOf(es: seq<Slot>, mode: nat, i: nat): nat {
    Rank(Order(es, mode), LiveSlots(es), i)
  }

  lemma {:induction false} LiveSlotCount(es: seq<Slot>)
    ensures |LiveSlots(es)| == LiveCount(es)
  {
    if es != [] {
      var last := |es| - 1;
      LiveSlotCount(es[..last]);
      assert LiveSlots(es) == LiveSlots(es[..last]) + (if es[last].Live() then {last} else {});
    } else {
      assert LiveSlots(es) == {};
    }
  }

  lemma PrecedesOrders(es: seq<Slot>, mode: nat, next: nat)
    requires Stamped(es, next)
    ensures Orders(Order(es, mode), LiveSlots(es))
  {
    hide Home;
  }

  // ----- ranks by counting -----

  /** How many of the first `n` slots precede slot `c`. */
  function CountBefore(es: seq<Slot>, mode: nat, c: nat, n: nat): nat
    requires n <= |es|
  {
    if n == 0 then 0 else CountBefore(es, mode, c, n - 1) + (if Precedes(es, mode, n - 1, c) then 1 else 0)
  }

  lemma {:induction false} CountIsRank(es: seq<Slot>, mode: nat, c: nat, n: nat)
    requires n <= |es|
    ensures CountBefore(es, mode, c, n) == |set x: nat | x < n && Precedes(es, mode, x, c)|
    ensures n == |es| ==> CountBefore(es, mode, c, n) == RankOf(es, mode, c)
  {
    hide Home;
    var s := set x: nat | x < n && Precedes(es, mode, x, c);
    if n > 0 {
      CountIsRank(es, mode, c, n - 1);
      var t := set x: nat | x < n - 1 && Precedes(es, mode, x, c);
      assert s == t + (if Precedes(es, mode, n - 1, c) then {n - 1} else {});
    } else {
      assert s == {};
    }
    if n == |es| {
      assert s == Below(Order(es, mode), LiveSlots(es), c);
    }
  }

  // ----- the enumeration -----

  /** `at` lists the live slots in iteration order. */
  ghost predicate Enumerates(es: seq<Slot>, mode: nat, at: seq<nat>) {
    && |at| == LiveCount(es)
    && (forall r | 0 <= r < |at| :: at[r] < |es| && es[at[r]].Live() && RankOf(es, mode, at[r]) == r)
  }

  /** There is such a list; it is sorted strictly, and holds every live slot once. */
  lemma Enumeration(es: seq<Slot>, mode: nat, next: nat, at: seq<nat>)
    requires Stamped(es, next) && Enumerates(es, mode, at)
    ensures forall a, b | 0 <= a < b < |at| :: Precedes(es, mode, at[a], at[b])
    ensures forall i: nat | i < |es| && es[i].Live() :: RankOf(es, mode, i) < |at| && at[RankOf(es, mode, i)] == i
  {
    var order, live := Order(es, mode), LiveSlots(es);
    PrecedesOrders(es, mode, next);
    LiveSlotCount(es);
    forall a, b | 0 <= a < b < |at| ensures Precedes(es, mode, at[a], at[b]) {
      RankOrder(order, live, at[a], at[b]);
    }
    forall i: nat | i < |es| && es[i].Live() ensures RankOf(es, mode, i) < |at| && at[RankOf(es, mode, i)] == i {
      RankOrder(order, live, i, i);
      RankOrder(order, live, i, at[RankOf(es, mode, i)]);
    }
  }

  lemma SlotOfRank(es: seq<Slot>, mode: nat, next: nat, r: nat) returns (i: nat)
    requires Stamped(es, next) && r < LiveCount(es)
    ensures i < |es| && es[i].Live() && RankOf(es, mode, i) == r
  {
    PrecedesOrders(es, mode, next);
    LiveSlotCount(es);
    i := RankReached(Order(es, mode), LiveSlots(es), r);
  }

  lemma {:induction false} FirstRanks(es: seq<Slot>, mode: nat, next: nat, n: nat) returns (at: seq<nat>)
    requires Stamped(es, next) && n <= LiveCount(es)
    ensures |at| == n
    ensures forall r | 0 <= r < n :: at[r] < |es| && es[at[r]].Live() && RankOf(es, mode, at[r]) == r
  {
    hide LiveCount, RankOf, Stamped;
    at := [];
    if n > 0 {
      at := FirstRanks(es, mode, next, n - 1);
      var i := SlotOfRank(es, mode, next, n - 1);
      at := at + [i];
    }
  }

  /** Every table has such a list, in every order mode. */
  lemma EnumerationExists(es: seq<Slot>, mode: nat, next: nat) returns (at: seq<nat>)
    requires Stamped(es, next)
    ensures Enumerates(es, mode, at)
  {
    at := FirstRanks(es, mode, next, LiveCount(es));
  }

  /** What the orders are. An ordered hash lists its keys by rising sequence numbers; the
      unordered mode by home slots, and keys of one home slot from the youngest to the
      eldest. */
  lemma OrderOfKeys(es: seq<Slot>, mode: nat, next: nat, at: seq<nat>)
    requires Stamped(es, next) && Enumerates(es, mode, at)
    ensures forall a, b | 0 <= a < b < |at| ::
              var s, t := es[at[a]], es[at[b]];
              && s.Live() && t.Live()
              && if mode != 0 then s.sequence < t.sequence
                 else
                   var x, y := StringHash(s.key.value) % |es|, StringHash(t.key.value) % |es|;
                   x < y || (x == y && s.sequence > t.sequence)
  {
    hide RankOf, LiveCount, StringHash;
    Enumeration(es, mode, next, at);
    forall a, b | 0 <= a < b < |at| ensures Precedes(es, mode, at[a], at[b]) {
    }
  }
}
