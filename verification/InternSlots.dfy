/** The slots of the weak table of interned strings: open addressing without deletion. */
module InternSlots {
  import opened Values
  import opened Probing
  import opened HashSlots
  import opened Objects
  import opened ObjectList

  /** The same table with its strings in place of the objects. */
  ghost function Texts(es: seq<Obj?>): (r: seq<Slot>)
    ensures |r| == |es|
    ensures forall i | 0 <= i < |es| :: r[i] == TextSlot(es[i])
  {
    seq(|es|, i requires 0 <= i < |es| => TextSlot(es[i]))
  }

  ghost function TextSlot(o: Obj?): Slot {
    if o == null || o.text.None? then UNUSED else Slot(o.text, Null, 0)
  }

  ghost predicate OnlyStrings(es: seq<Obj?>) {
    forall i | 0 <= i < |es| && es[i] != null :: es[i].text.Some?
  }

  ghost function Members(es: seq<Obj?>): set<Obj> {
    set i | 0 <= i < |es| && es[i] != null :: es[i]
  }

  /** Every string is found by probing, and no two strings have the same characters. */
  ghost predicate Interned(es: seq<Obj?>) {
    OnlyStrings(es) && Table(Texts(es))
  }

  lemma EmptyInterned(es: seq<Obj?>)
    requires forall i | 0 <= i < |es| :: es[i] == null
    ensures Interned(es) && Members(es) == {} && LiveCount(Texts(es)) == 0
  {
    EmptyTable(Texts(es));
  }

  /** The object in the table with given characters. */
  lemma Found(es: seq<Obj?>, a: Obj, b: Obj)
    requires Interned(es) && a in Members(es) && b in Members(es) && a.text == b.text
    ensures a == b
  {
    var i :| 0 <= i < |es| && es[i] == a;
    var j :| 0 <= j < |es| && es[j] == b;
    assert Holds(Texts(es), i, a.text.value) && Holds(Texts(es), j, a.text.value);
  }

  lemma Find(es: seq<Obj?>, key: string) returns (o: Obj)
    requires Interned(es) && InTable(Texts(es), key)
    ensures o in Members(es) && o.text == Some(key)
  {
    o := es[SlotWith(Texts(es), key)];
  }

  lemma Placed(es: seq<Obj?>, i: nat, o: Obj)
    requires Interned(es) && i < |es| && es[i] == null && o.text.Some? && !InTable(Texts(es), o.text.value)
    requires forall k | 0 <= k < Distance(Home(o.text.value, |es|), i, |es|) ::
               es[Probe(Home(o.text.value, |es|), k, |es|)] != null
    ensures Interned(es[i := o]) && Members(es[i := o]) == Members(es) + {o}
    ensures LiveCount(Texts(es[i := o])) == LiveCount(Texts(es)) + 1
  {
    var key := o.text.value;
    assert Unbroken(Texts(es), key, Distance(Home(key, |es|), i, |es|));
    hide Table, LiveCount, Unbroken, Items;
    assert Texts(es[i := o]) == Texts(es)[i := Slot(o.text, Null, 0)];
    StoreNew(Texts(es), i, key, Item(Null, 0));
    LiveUpdate(Texts(es), i, Slot(o.text, Null, 0));
    PlacedMember(es, i, o);
  }

  lemma PlacedMember(es: seq<Obj?>, i: nat, o: Obj)
    requires i < |es| && es[i] == null
    ensures Members(es[i := o]) == Members(es) + {o}
  {
    var t := es[i := o];
    forall x | x in Members(es) ensures x in Members(t) {
      var j :| 0 <= j < |es| && es[j] == x;
      assert t[j] == x;
    }
    assert t[i] == o;
  }

  lemma {:induction false} MemberCount(es: seq<Obj?>)
    requires Interned(es)
    ensures |Members(es)| == LiveCount(Texts(es))
  {
    hide Findable;
    MemberCountOf(es);
  }

  lemma {:induction false} MemberCountOf(es: seq<Obj?>)
    requires OnlyStrings(es) && Unique(Texts(es))
    ensures |Members(es)| == LiveCount(Texts(es))
  {
    if es == [] {
      assert Members(es) == {};
    } else {
      var last := |es| - 1;
      var front := es[..last];
      assert Texts(es)[..last] == Texts(front);
      assert forall i, key :: Holds(Texts(front), i, key) ==> Holds(Texts(es), i, key);
      MemberCountOf(front);
      if es[last] == null {
        assert Members(es) == Members(front);
      } else {
        PrefixMembers(es);
      }
    }
  }

  lemma PrefixMembers(es: seq<Obj?>)
    requires OnlyStrings(es) && Unique(Texts(es)) && es != [] && es[|es| - 1] != null
    ensures var front, o := es[..|es| - 1], es[|es| - 1]; o !in Members(front) && Members(es) == Members(front) + {o}
  {
    var last := |es| - 1;
    var front, o := es[..last], es[last];
    if o in Members(front) {
      var i :| 0 <= i < last && front[i] == o;
      assert Holds(Texts(es), i, o.text.value) && Holds(Texts(es), last, o.text.value);
    }
    forall x | x in Members(front) ensures x in Members(es) {
      var j :| 0 <= j < |front| && front[j] == x;
      assert es[j] == x;
    }
  }

  /** Two strings the table was built from prefix by prefix differ. */
  lemma PrefixInterned(es: seq<Obj?>, n: nat)
    requires Interned(es) && n < |es| && es[n] != null
    ensures forall x | x in Members(es[..n]) :: x.text != es[n].text
    ensures Members(es[..n + 1]) == Members(es[..n]) + {es[n]}
  {
    forall x | x in Members(es[..n]) ensures x.text != es[n].text {
      var i :| 0 <= i < n && es[..n][i] == x;
      assert es[i] == x;
      assert Holds(Texts(es), i, x.text.value) && Holds(Texts(es), n, es[n].text.value);
    }
    assert es[..n + 1] == es[..n] + [es[n]];
  }

  // ----- the table of the heap -----

  const INTERN_FIRST := 256

  ghost predicate InternCapacity(n: nat) { n == 0 || Doubled(n, INTERN_FIRST) }

  /** The table is at most half full. */
  ghost predicate TableSound(es: seq<Obj?>, count: nat) {
    InternCapacity(|es|) && Interned(es) && count == LiveCount(Texts(es)) && 2 * count <= |es|
  }

  /** The string objects of the heap. */
  ghost function Strings(all: seq<Obj>): set<Obj> {
    set o | o in all && o.text.Some?
  }

  /** Strings with the same characters are the same object. */
  ghost predicate Canonical(strings: set<Obj>) {
    forall a, b | a in strings && b in strings && a.text == b.text :: a == b
  }

  lemma NoStrings(all: seq<Obj>, es: seq<Obj?>)
    requires 2 * |Strings(all)| <= |es| && es == []
    ensures TableSound(es, 0) && Members(es) == Strings(all)
  {
    EmptyInterned(es);
    assert Strings(all) == {};
  }

  lemma StringsOfNone(all: seq<Obj>)
    ensures Strings(all[..0]) == {}
  {
  }

  /** The next string is not in the table yet. */
  lemma MoreStrings(all: seq<Obj>, n: nat, es: seq<Obj?>, count: nat)
    requires n < |all| && Distinct(all) && Canonical(Strings(all)) && Interned(es) && Members(es) == Strings(all[..n])
    ensures Strings(all[..n + 1]) == Strings(all[..n]) + (if all[n].text.Some? then {all[n]} else {})
    ensures all[n].text.Some? ==> !InTable(Texts(es), all[n].text.value)
    ensures all[n].text.Some? ==> all[n] in Strings(all) && all[n] !in Members(es)
    ensures Strings(all[..n]) <= Strings(all)
  {
    assert all[..n + 1] == all[..n] + [all[n]];
    assert all[n].text.Some? ==> all[n] in Strings(all);
    if all[n].text.Some? && InTable(Texts(es), all[n].text.value) {
      var other := Find(es, all[n].text.value);
    }
  }

  /** There is a free slot for another string of the list. */
  lemma Fits(all: seq<Obj>, es: seq<Obj?>, count: nat)
    requires Interned(es) && count == LiveCount(Texts(es)) && Members(es) <= Strings(all)
    requires 2 * |Strings(all)| <= |es| && es != []
    ensures count < |es| && OnlyStrings(es)
  {
    MemberCount(es);
    FewerMembers(Members(es), Strings(all));
  }

  lemma FewerMembers(a: set<Obj>, b: set<Obj>)
    requires a <= b
    ensures |a| <= |b|
  {
    assert b == a + (b - a);
  }

  lemma Rebuilt(all: seq<Obj>, es: seq<Obj?>, count: nat)
    requires Interned(es) && count == LiveCount(Texts(es)) && Members(es) == Strings(all)
    requires InternCapacity(|es|) && 2 * |Strings(all)| <= |es|
    ensures TableSound(es, count)
  {
    MemberCount(es);
  }

  // ----- growing the table -----

  lemma StartTable(es: seq<Obj?>, t: seq<Obj?>)
    requires forall i | 0 <= i < |t| :: t[i] == null
    ensures Interned(t) && Members(t) == Members(es[..0])
  {
    EmptyInterned(t);
  }

  lemma MoreMembers(es: seq<Obj?>, n: nat, t: seq<Obj?>)
    requires Interned(es) && n < |es| && Interned(t) && Members(t) == Members(es[..n])
    ensures es[n] == null ==> Members(es[..n + 1]) == Members(es[..n])
    ensures es[n] != null ==> Members(es[..n + 1]) == Members(es[..n]) + {es[n]}
    ensures es[n] != null ==> es[n].text.Some? && !InTable(Texts(t), es[n].text.value)
  {
    assert es[..n + 1] == es[..n] + [es[n]];
    if es[n] != null {
      PrefixInterned(es, n);
      if InTable(Texts(t), es[n].text.value) {
        var other := Find(t, es[n].text.value);
      }
    }
  }

  lemma MembersFit(es: seq<Obj?>, n: nat, t: seq<Obj?>)
    requires n < |es| && Interned(t) && Members(t) == Members(es[..n]) && |t| == 2 * |es|
    ensures LiveCount(Texts(t)) < |t| && OnlyStrings(t)
  {
    MemberCount(t);
    MembersBound(es[..n]);
  }

  lemma {:induction false} MembersBound(es: seq<Obj?>)
    ensures |Members(es)| <= |es|
  {
    if es == [] {
      assert Members(es) == {};
    } else {
      var front := es[..|es| - 1];
      MembersBound(front);
      assert es == front + [es[|es| - 1]];
      assert Members(es) == Members(front) + (if es[|es| - 1] == null then {} else {es[|es| - 1]});
    }
  }

  lemma Regrown(es: seq<Obj?>, count: nat, t: seq<Obj?>)
    requires TableSound(es, count) && es != [] && Interned(t) && Members(t) == Members(es) && |t| == 2 * |es|
    ensures TableSound(t, count)
  {
    MemberCount(es);
    MemberCount(t);
    DoubledAgain(|es|, INTERN_FIRST);
  }

  // ----- looking a string up -----

  lemma StartProbing(es: seq<Obj?>, chars: string)
    requires es != []
    ensures Passed(Texts(es), chars, 0)
  {
  }

  lemma TextAt(es: seq<Obj?>, i: nat)
    requires Interned(es) && i < |es| && es[i] != null
    ensures es[i].text.Some? && es[i] in Members(es)
  {
  }

  lemma PassText(es: seq<Obj?>, chars: string, n: nat)
    requires Interned(es) && n < |es| && Passed(Texts(es), chars, n)
    requires var o := es[Probe(Home(chars, |es|), n, |es|)]; o != null && o.text != Some(chars)
    ensures Passed(Texts(es), chars, n + 1)
  {
  }

  lemma ProbingEnds(es: seq<Obj?>, chars: string, n: nat, all: seq<Obj>)
    requires Interned(es) && es != [] && n <= |es| && Passed(Texts(es), chars, n) && Members(es) == Strings(all)
    requires n == |es| || es[Probe(Home(chars, |es|), n, |es|)] == null
    ensures forall o | o in all :: o.text != Some(chars)
  {
    if n == |es| {
      StopsAfterAll(Texts(es), chars);
    } else {
      StopsAtUnused(Texts(es), chars, n);
    }
    NotListed(es, chars, all);
  }

  lemma NotListed(es: seq<Obj?>, chars: string, all: seq<Obj>)
    requires Interned(es) && !InTable(Texts(es), chars) && Members(es) == Strings(all)
    ensures forall o | o in all :: o.text != Some(chars)
  {
    forall o | o in all && o.text.Some? ensures o.text != Some(chars) {
      assert o in Members(es);
      var i :| 0 <= i < |es| && es[i] == o;
      assert Holds(Texts(es), i, o.text.value);
    }
  }

  lemma NothingInterned(es: seq<Obj?>, chars: string, all: seq<Obj>)
    requires Interned(es) && es == [] && Members(es) == Strings(all)
    ensures forall o | o in all :: o.text != Some(chars)
  {
    NotListed(es, chars, all);
  }

  lemma MissingText(es: seq<Obj?>, chars: string, all: seq<Obj>)
    requires Interned(es) && Members(es) == Strings(all) && forall o | o in all :: o.text != Some(chars)
    ensures !InTable(Texts(es), chars)
  {
    if InTable(Texts(es), chars) {
      var o := Find(es, chars);
    }
  }

  lemma RoomForOne(capacity: nat, count: nat)
    requires InternCapacity(capacity) && 2 * count < capacity
    ensures 2 * (count + 1) <= capacity
  {
  }

  lemma FewInterned(es: seq<Obj?>, count: nat)
    requires TableSound(es, count) && es != []
    ensures LiveCount(Texts(es)) < |es| && OnlyStrings(es)
  {
  }

  lemma FirstTable(none: seq<Obj?>, es: seq<Obj?>, count: nat, all: seq<Obj>)
    requires none == [] && |es| == INTERN_FIRST && (forall i | 0 <= i < |es| :: es[i] == null)
    requires TableSound(none, count) && Members(none) == Strings(all)
    ensures TableSound(es, count) && Members(es) == Strings(all)
  {
    EmptyInterned(es);
  }
}
