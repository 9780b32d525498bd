/** Ranks in a finite strict total order. */
module Ranking {

  /** `less` orders the members of `s` strictly and totally. */
  ghost predicate Orders(less: (nat, nat) -> bool, s: set<nat>) {
    && (forall a | a in s :: !less(a, a))
    && (forall a, b | a in s && b in s && a != b :: less(a, b) != less(b, a))
    && (forall a, b, c | a in s && b in s && c in s && less(a, b) && less(b, c) :: less(a, c))
  }

  ghost function Below(less: (nat, nat) -> bool, s: set<nat>, c: nat): set<nat> {
    set x | x in s && less(x, c)
  }

  ghost function Rank(less: (nat, nat) -> bool, s: set<nat>, c: nat): nat {
    |Below(less, s, c)|
  }

  lemma SubsetSize(a: set<nat>, b: set<nat>)
    requires a <= b
    ensures |a| <= |b| && (a != b ==> |a| < |b|)
  {
    assert b == a + (b - a);
  }

  /** Ranks follow the order and lie below the number of members. */
  lemma RankOrder(less: (nat, nat) -> bool, s: set<nat>, a: nat, b: nat)
    requires Orders(less, s) && a in s && b in s
    ensures Rank(less, s, a) < |s|
    ensures less(a, b) <==> Rank(less, s, a) < Rank(less, s, b)
    ensures a != b ==> Rank(less, s, a) != Rank(less, s, b)
  {
    assert a !in Below(less, s, a);
    SubsetSize(Below(less, s, a), s);
    if less(a, b) { RankRises(less, s, a, b); }
    if less(b, a) { RankRises(less, s, b, a); }
  }

  lemma RankRises(less: (nat, nat) -> bool, s: set<nat>, a: nat, b: nat)
    requires Orders(less, s) && a in s && b in s && less(a, b)
    ensures Rank(less, s, a) < Rank(less, s, b)
  {
    assert a in Below(less, s, b) && a !in Below(less, s, a);
    forall x | x in Below(less, s, a) ensures x in Below(less, s, b) {
      assert less(x, a) && less(a, b);
    }
    SubsetSize(Below(less, s, a), Below(less, s, b));
  }

  lemma {:induction false} Greatest(less: (nat, nat) -> bool, s: set<nat>) returns (m: nat)
    requires Orders(less, s) && |s| > 0
    ensures m in s && forall x | x in s && x != m :: less(x, m)
    decreases |s|
  {
    m :| m in s;
    var rest := s - {m};
    if |rest| > 0 {
      var top := Greatest(less, rest);
      if !less(top, m) {
        assert less(m, top);
        m := top;
      }
    }
  }

  /** Every number below the size is the rank of a member. */
  lemma {:induction false} RankReached(less: (nat, nat) -> bool, s: set<nat>, r: nat) returns (c: nat)
    requires Orders(less, s) && r < |s|
    ensures c in s && Rank(less, s, c) == r
    decreases |s|
  {
    var m := Greatest(less, s);
    var rest := s - {m};
    if r == |rest| {
      assert Below(less, s, m) == rest;
      c := m;
    } else {
      c := RankReached(less, rest, r);
      assert Below(less, s, c) == Below(less, rest, c);
    }
  }
}
