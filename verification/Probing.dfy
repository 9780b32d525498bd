/** Linear probing over a table whose capacity is a power of two. Masking an index with
    `capacity - 1` is the remainder modulo the capacity, and the step behind the last
    slot is slot 0. */
module Probing {

  /** slp_hash_string: a 31-multiplier hash with the supplemental mixing of HashMap. */
  function StringHash(s: string): nat {
    var h := Mixed(s);
    var g := h ^ ((h >> 20) ^ (h >> 12));
    (g ^ (g >> 7) ^ (g >> 4)) as nat
  }

  function Mixed(s: string): bv32 {
    if s == [] then 0 else Mixed(s[..|s| - 1]) * 31 + (s[|s| - 1] as int % 256) as bv32
  }

  /** Capacities are a first size doubled any number of times. */
  predicate Doubled(capacity: nat, first: nat) {
    capacity == first || (capacity > 0 && capacity % 2 == 0 && Doubled(capacity / 2, first))
  }

  function Home(s: string, capacity: nat): (h: nat)
    requires capacity > 0
    ensures h < capacity
  {
    StringHash(s) % capacity
  }

  /** The slot behind slot `i`. */
  function Next(i: nat, capacity: nat): (r: nat)
    requires i < capacity
    ensures r < capacity
  {
    if i + 1 == capacity then 0 else i + 1
  }

  /** The slot reached from `home` after `k` steps. */
  function Probe(home: nat, k: nat, capacity: nat): (r: nat)
    requires home < capacity && k < capacity
    ensures r < capacity
  {
    if home + k < capacity then home + k else home + k - capacity
  }

  /** The number of steps from `home` to slot `i`. */
  function Distance(home: nat, i: nat, capacity: nat): (d: nat)
    requires home < capacity && i < capacity
    ensures d < capacity
    ensures Probe(home, d, capacity) == i
    ensures forall k | 0 <= k < capacity && Probe(home, k, capacity) == i :: k == d
  {
    if i >= home then i - home else i + capacity - home
  }

  lemma {:induction false} DoubledAgain(capacity: nat, first: nat)
    requires Doubled(capacity, first) && first > 0
    ensures Doubled(2 * capacity, first) && capacity >= first
  {
    assert 2 * capacity / 2 == capacity;
    if capacity != first {
      DoubledAgain(capacity / 2, first);
    }
  }
}
