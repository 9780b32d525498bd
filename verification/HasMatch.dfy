/** `hasmatch`: each closure remembers how far it has come in at most sixteen pairs of
    text and pattern. The regular-expression engine is any matcher that answers with a
    range of the text behind the start offset. */
module HasMatch {
  import opened Values

  const MAX_STATES := 16

  /** Text and pattern are string objects, compared by identity. */
  datatype Key = Key(text: nat, pattern: nat)

  datatype Entry = Entry(key: Key, nextOffset: nat, sequence: nat)

  datatype Cache = Cache(entries: seq<Entry>, next: nat)

  /** The first match at or behind an offset, as start and end. */
  type Matcher = (Key, nat) -> Option<(nat, nat)>

  ghost predicate InRange(find: Matcher, length: Key -> nat) {
    forall key, from: nat :: find(key, from).Some? ==>
      var (start, end) := find(key, from).value; from <= start <= end <= length(key)
  }

  function NextOffset(start: nat, end: nat): nat { if start == end then end + 1 else end }

  /** Keys and sequence numbers are distinct, and there are at most sixteen. */
  ghost predicate Sound(c: Cache) {
    && |c.entries| <= MAX_STATES
    && (forall i | 0 <= i < |c.entries| :: c.entries[i].sequence <= c.next)
    && (forall i, j | 0 <= i < j < |c.entries| ::
          c.entries[i].key != c.entries[j].key && c.entries[i].sequence != c.entries[j].sequence)
  }

  /** The index of the entry for a key, or the number of entries. */
  function Find(es: seq<Entry>, key: Key): (k: nat)
    ensures k <= |es| && (k < |es| ==> es[k].key == key)
    ensures forall i | 0 <= i < k :: es[i].key != key
  {
    if es == [] || es[0].key == key then 0 else 1 + Find(es[1..], key)
  }

  /** The index of the entry used longest ago. */
  function Oldest(es: seq<Entry>): (k: nat)
    requires es != []
    ensures k < |es| && forall i | 0 <= i < |es| :: es[k].sequence <= es[i].sequence
  {
    if |es| == 1 then 0
    else
      var k := Oldest(es[..|es| - 1]);
      assert forall i | 0 <= i < |es| - 1 :: es[..|es| - 1][i] == es[i];
      if es[|es| - 1].sequence < es[k].sequence then |es| - 1 else k
  }

  /** The slot a call uses, already carrying its new sequence number. */
  function Slot(c: Cache, key: Key): (nat, seq<Entry>) {
    var k := Find(c.entries, key);
    if k < |c.entries| then (k, c.entries[k := c.entries[k].(sequence := c.next + 1)])
    else if |c.entries| < MAX_STATES then (k, c.entries + [Entry(key, 0, c.next + 1)])
    else var o := Oldest(c.entries); (o, c.entries[o := Entry(key, 0, c.next + 1)])
  }

  /** The last entry fills the gap. */
  function Dropped(es: seq<Entry>, k: nat): seq<Entry>
    requires k < |es|
  {
    var last := |es| - 1;
    if k == last then es[..last] else es[..last][k := es[last]]
  }

  type Match = Option<(nat, nat)>

  /** regex_hasmatch: the match it found and remembers, or none. */
  function Call(find: Matcher, c: Cache, key: Key): (Match, Cache) {
    var (k, es) := Slot(c, key);
    match find(key, es[k].nextOffset)
    case None => (None, Cache(Dropped(es, k), c.next + 1))
    case Some((start, end)) => (Some((start, end)), Cache(es[k := es[k].(nextOffset := NextOffset(start, end))], c.next + 1))
  }

  lemma SlotSound(c: Cache, key: Key)
    requires Sound(c)
    ensures var (k, es) := Slot(c, key); k < |es| && es[k].key == key && Sound(Cache(es, c.next + 1))
  {
  }

  lemma DroppedSound(c: Cache, k: nat)
    requires Sound(c) && k < |c.entries|
    ensures Sound(Cache(Dropped(c.entries, k), c.next))
  {
  }

  /** Every call keeps the cache sound. */
  lemma CallSound(find: Matcher, c: Cache, key: Key)
    requires Sound(c)
    ensures Sound(Call(find, c, key).1) && |Call(find, c, key).1.entries| <= 16
  {
    hide Sound, Slot, Dropped;
    SlotSound(c, key);
    var (k, es) := Slot(c, key);
    match find(key, es[k].nextOffset) {
    case None => DroppedSound(Cache(es, c.next + 1), k);
    case Some((start, end)) => OffsetSound(Cache(es, c.next + 1), k, NextOffset(start, end));
    }
    AtMostSixteen(Call(find, c, key).1);
  }

  lemma AtMostSixteen(c: Cache)
    requires Sound(c)
    ensures |c.entries| <= 16
  {
  }

  lemma OffsetSound(c: Cache, k: nat, offset: nat)
    requires Sound(c) && k < |c.entries|
    ensures Sound(Cache(c.entries[k := c.entries[k].(nextOffset := offset)], c.next))
  {
  }

  /** Only a seventeenth pair evicts, and then the pair used longest ago. */
  lemma EvictsOldest(c: Cache, key: Key, i: nat)
    requires Sound(c) && i < |c.entries| && c.entries[i].key !in Keys(Slot(c, key).1)
    ensures |c.entries| == 16 && key !in Keys(c.entries)
    ensures forall j | 0 <= j < |c.entries| && j != i :: c.entries[i].sequence < c.entries[j].sequence
    ensures forall j | 0 <= j < |c.entries| && j != i :: c.entries[j].key in Keys(Slot(c, key).1)
  {
    var (k, es) := Slot(c, key);
    forall j | 0 <= j < |c.entries| && (j != k || Find(c.entries, key) < |c.entries|)
      ensures c.entries[j].key in Keys(es)
    {
      assert es[j].key == c.entries[j].key;
    }
  }

  // ----- sequence numbers are times -----

  /** The states a closure has after these calls. */
  function AfterCalls(find: Matcher, calls: seq<Key>): Cache {
    if calls == [] then Cache([], 0) else Call(find, AfterCalls(find, calls[..|calls| - 1]), calls[|calls| - 1]).1
  }

  /** How many calls were made up to and with the last one for the key. */
  function LastCall(calls: seq<Key>, key: Key): (n: nat)
    ensures n <= |calls|
  {
    if calls == [] then 0 else if calls[|calls| - 1] == key then |calls| else LastCall(calls[..|calls| - 1], key)
  }

  /** The sequence number of a pair is the time of its last call: the pair that is evicted is
      the one whose last call lies furthest back. */
  lemma {:induction false} StampedByLastCall(find: Matcher, calls: seq<Key>)
    ensures var c := AfterCalls(find, calls);
            && Sound(c) && c.next == |calls|
            && forall i | 0 <= i < |c.entries| :: c.entries[i].sequence == LastCall(calls, c.entries[i].key) > 0
  {
    hide Sound, Call;
    if calls == [] {
      Fresh();
    } else {
      var before, key := calls[..|calls| - 1], calls[|calls| - 1];
      var c := AfterCalls(find, before);
      StampedByLastCall(find, before);
      CallSound(find, c, key);
      CallStamps(find, c, key);
      var d := AfterCalls(find, calls);
      forall i | 0 <= i < |d.entries| ensures d.entries[i].sequence == LastCall(calls, d.entries[i].key) > 0 {
        if d.entries[i].key != key {
          var j :| 0 <= j < |c.entries| && c.entries[j].key == d.entries[i].key && c.entries[j].sequence == d.entries[i].sequence;
        }
      }
    }
  }

  /** A call gives its pair the next number and leaves the others theirs. */
  lemma CallStamps(find: Matcher, c: Cache, key: Key)
    requires Sound(c)
    ensures var d := Call(find, c, key).1;
            && d.next == c.next + 1
            && (forall i | 0 <= i < |d.entries| && d.entries[i].key == key :: d.entries[i].sequence == d.next)
            && (forall i | 0 <= i < |d.entries| && d.entries[i].key != key ::
                  exists j :: 0 <= j < |c.entries| && c.entries[j].key == d.entries[i].key && c.entries[j].sequence == d.entries[i].sequence)
  {
    hide Find, Oldest, Dropped;
    SlotSound(c, key);
    var (k, es) := Slot(c, key);
    var d := Call(find, c, key).1;
    SlotStamps(c, key);
    forall i | 0 <= i < |d.entries|
      ensures exists j :: 0 <= j < |es| && es[j].key == d.entries[i].key && es[j].sequence == d.entries[i].sequence
    {
      if find(key, es[k].nextOffset).None? { DroppedFrom(es, k, i); } else { assert es[i].key == d.entries[i].key; }
    }
  }

  lemma DroppedFrom(es: seq<Entry>, k: nat, i: nat)
    requires k < |es| && i < |Dropped(es, k)|
    ensures exists j :: 0 <= j < |es| && es[j] == Dropped(es, k)[i]
  {
    var j := if i == k then |es| - 1 else i;
    assert es[j] == Dropped(es, k)[i];
  }

  lemma SlotStamps(c: Cache, key: Key)
    requires Sound(c)
    ensures var (k, es) := Slot(c, key);
            && (forall i | 0 <= i < |es| && es[i].key == key :: es[i].sequence == c.next + 1)
            && (forall i | 0 <= i < |es| && es[i].key != key :: i < |c.entries| && es[i] == c.entries[i])
  {
    hide Find, Oldest;
    var (k, es) := Slot(c, key);
    SlotSound(c, key);
  }

  ghost function Keys(es: seq<Entry>): set<Key> {
    set i | 0 <= i < |es| :: es[i].key
  }

  // ----- independent enumerations -----

  /** The offset of each pair that has been started. */
  type Offsets = map<Key, nat>

  function OffsetOf(m: Offsets, key: Key): nat { if key in m then m[key] else 0 }

  /** One call when every pair has its own enumeration. */
  function Advance(find: Matcher, m: Offsets, key: Key): (Match, Offsets) {
    match find(key, OffsetOf(m, key))
    case None => (None, m - {key})
    case Some((start, end)) => (Some((start, end)), m[key := NextOffset(start, end)])
  }

  /** The cache holds exactly the offsets. */
  ghost predicate Holds(c: Cache, m: Offsets) {
    && (forall i | 0 <= i < |c.entries| :: c.entries[i].key in m && m[c.entries[i].key] == c.entries[i].nextOffset)
    && (forall key | key in m :: Find(c.entries, key) < |c.entries|)
  }

  /** As long as there is room, a call is one step of its own enumeration. */
  lemma CallAdvances(find: Matcher, c: Cache, m: Offsets, key: Key)
    requires Sound(c) && Holds(c, m) && (key in m || |c.entries| < MAX_STATES)
    ensures Call(find, c, key).0 == Advance(find, m, key).0
    ensures Holds(Call(find, c, key).1, Advance(find, m, key).1)
  {
    hide Slot, Dropped, Sound, Holds, OffsetOf, Find;
    SlotSound(c, key);
    SlotHolds(c, m, key);
    var (k, es) := Slot(c, key);
    var d := Cache(es, c.next + 1);
    match find(key, es[k].nextOffset)
    case None =>
      Overwritten(m, key, OffsetOf(m, key), 0);
      DroppedHolds(d, m[key := OffsetOf(m, key)], k);
    case Some((start, end)) =>
      Overwritten(m, key, OffsetOf(m, key), NextOffset(start, end));
      OffsetHolds(d, m[key := OffsetOf(m, key)], k, NextOffset(start, end));
  }

  lemma Overwritten(m: Offsets, key: Key, offset: nat, other: nat)
    ensures m[key := offset] - {key} == m - {key}
    ensures m[key := offset][key := other] == m[key := other]
  {
  }

  lemma FindIs(es: seq<Entry>, k: nat)
    requires k < |es|
    ensures Find(es, es[k].key) <= k
  {
  }

  lemma SlotHolds(c: Cache, m: Offsets, key: Key)
    requires Sound(c) && Holds(c, m) && (key in m || |c.entries| < MAX_STATES)
    ensures var (k, es) := Slot(c, key);
            k < |es| && es[k].key == key && es[k].nextOffset == OffsetOf(m, key)
            && Holds(Cache(es, c.next + 1), m[key := OffsetOf(m, key)])
  {
    hide Find, Oldest;
    var (k, es) := Slot(c, key);
    var n := m[key := OffsetOf(m, key)];
    if k < |c.entries| { assert c.entries[k].key == key; }
    forall x | x in n ensures Find(es, x) < |es| {
      var i := if x == key then k else Find(c.entries, x);
      assert es[i].key == x;
      FindIs(es, i);
    }
  }

  lemma OffsetHolds(c: Cache, m: Offsets, k: nat, offset: nat)
    requires Sound(c) && Holds(c, m) && k < |c.entries|
    ensures Holds(Cache(c.entries[k := c.entries[k].(nextOffset := offset)], c.next), m[c.entries[k].key := offset])
  {
    var es := c.entries[k := c.entries[k].(nextOffset := offset)];
    forall x | x in m[c.entries[k].key := offset] ensures Find(es, x) < |es| {
      var i := if x == c.entries[k].key then k else Find(c.entries, x);
      assert es[i].key == x;
      FindIs(es, i);
    }
  }

  lemma DroppedEntries(c: Cache, m: Offsets, k: nat)
    requires Sound(c) && Holds(c, m) && k < |c.entries|
    ensures var es := Dropped(c.entries, k);
            forall i | 0 <= i < |es| :: es[i].key != c.entries[k].key && es[i].key in m && m[es[i].key] == es[i].nextOffset
  {
    hide Find;
    var es, last := Dropped(c.entries, k), |c.entries| - 1;
    forall i | 0 <= i < |es| ensures es[i].key != c.entries[k].key && es[i].key in m && m[es[i].key] == es[i].nextOffset {
      var from := if i == k then last else i;
      assert es[i] == c.entries[from] && from != k;
    }
  }

  lemma DroppedHolds(c: Cache, m: Offsets, k: nat)
    requires Sound(c) && Holds(c, m) && k < |c.entries|
    ensures Holds(Cache(Dropped(c.entries, k), c.next), m - {c.entries[k].key})
  {
    hide Find, Sound;
    DroppedEntries(c, m, k);
    forall x | x in m && x != c.entries[k].key ensures Find(Dropped(c.entries, k), x) < |c.entries| - 1 {
      StillFound(c.entries, k, x);
    }
  }

  /** Any other key stays. */
  lemma StillFound(es: seq<Entry>, k: nat, x: Key)
    requires k < |es| && Find(es, x) < |es| && es[k].key != x
    ensures Find(Dropped(es, k), x) < |Dropped(es, k)| == |es| - 1
  {
    hide Find;
    var i, last := Find(es, x), |es| - 1;
    var j := if i == last then k else i;
    assert Dropped(es, k)[j] == es[i];
    FindIs(Dropped(es, k), j);
  }

  // ----- interleaved runs -----

  function Results(find: Matcher, c: Cache, calls: seq<Key>): (r: seq<Match>)
    ensures |r| == |calls|
    decreases |calls|
  {
    if calls == [] then []
    else
      var (found, d) := Call(find, c, calls[0]);
      [found] + Results(find, d, calls[1..])
  }

  /** The answers of the calls for `key`, in order. */
  function Answers(calls: seq<Key>, results: seq<Match>, key: Key): seq<Match>
    requires |results| == |calls|
    decreases |calls|
  {
    if calls == [] then []
    else (if calls[0] == key then [results[0]] else []) + Answers(calls[1..], results[1..], key)
  }

  /** The answers of `n` calls for `key` alone, from `offset` on. */
  function Alone(find: Matcher, key: Key, offset: nat, n: nat): (r: seq<Match>)
    ensures |r| == n
    decreases n
  {
    if n == 0 then []
    else
      match find(key, offset)
      case None => [None] + Alone(find, key, 0, n - 1)
      case Some((start, end)) => [Some((start, end))] + Alone(find, key, NextOffset(start, end), n - 1)
  }

  function CountOf(calls: seq<Key>, key: Key): nat
    decreases |calls|
  {
    if calls == [] then 0 else (if calls[0] == key then 1 else 0) + CountOf(calls[1..], key)
  }

  /** Sixteen interleaved pairs do not disturb each other: the calls for each of them
      answer as if it were alone. */
  lemma {:induction false} PairsIndependent(find: Matcher, c: Cache, m: Offsets, calls: seq<Key>, pairs: set<Key>, key: Key)
    requires Sound(c) && Holds(c, m) && m.Keys <= pairs && |pairs| <= 16
    requires forall i | 0 <= i < |calls| :: calls[i] in pairs
    ensures Answers(calls, Results(find, c, calls), key) == Alone(find, key, OffsetOf(m, key), CountOf(calls, key))
    decreases |calls|
  {
    hide Sound, Holds, Call;
    if calls != [] {
      var k := calls[0];
      RoomFor(c, m, pairs, k);
      CallAdvances(find, c, m, k);
      CallSound(find, c, k);
      var (found, d) := Call(find, c, k);
      PairsIndependent(find, d, Advance(find, m, k).1, calls[1..], pairs, key);
      assert Results(find, c, calls)[1..] == Results(find, d, calls[1..]);
    }
  }

  lemma RoomFor(c: Cache, m: Offsets, pairs: set<Key>, key: Key)
    requires Sound(c) && Holds(c, m) && m.Keys <= pairs && |pairs| <= MAX_STATES && key in pairs
    ensures key in m || |c.entries| < MAX_STATES
  {
    KeyCount(c.entries);
    if key !in m {
      assert Keys(c.entries) <= pairs - {key};
      SubsetSize(Keys(c.entries), pairs - {key});
    }
  }

  lemma SubsetSize(a: set<Key>, b: set<Key>)
    requires a <= b
    ensures |a| <= |b|
  {
    assert b == a + (b - a);
  }

  lemma {:induction false} KeyCount(es: seq<Entry>)
    requires forall i, j | 0 <= i < j < |es| :: es[i].key != es[j].key
    ensures |Keys(es)| == |es|
  {
    if es == [] {
      assert Keys(es) == {};
    } else {
      var front, last := es[..|es| - 1], es[|es| - 1];
      KeyCount(front);
      assert es == front + [last];
      assert last.key !in Keys(front);
      assert Keys(es) == Keys(front) + {last.key};
    }
  }

  // ----- one pair -----

  /** The matches of `n` calls on one pair, from `offset` on, up to the first miss. */
  function Matches(find: Matcher, key: Key, offset: nat, n: nat): (r: seq<(nat, nat)>)
    ensures |r| <= n
    decreases n
  {
    if n == 0 || find(key, offset).None? then []
    else
      var (start, end) := find(key, offset).value;
      [(start, end)] + Matches(find, key, NextOffset(start, end), n - 1)
  }

  /** All matches lie in the text at or behind `offset`, and each ends before the next
      begins. */
  ghost predicate Rising(ms: seq<(nat, nat)>, offset: nat, length: nat) {
    && (forall i | 0 <= i < |ms| :: offset <= ms[i].0 <= ms[i].1 <= length)
    && (forall i, j | 0 <= i < j < |ms| :: ms[i].0 < ms[j].0 && ms[i].1 <= ms[j].0)
  }

  lemma RisingFrom(start: nat, end: nat, rest: seq<(nat, nat)>, offset: nat, length: nat)
    requires offset <= start <= end <= length && Rising(rest, NextOffset(start, end), length)
    ensures Rising([(start, end)] + rest, offset, length)
  {
    var ms := [(start, end)] + rest;
    assert ms[0] == (start, end) && forall i | 0 < i < |ms| :: ms[i] == rest[i - 1];
  }

  /** Repeated calls find matches that do not overlap, at strictly rising offsets. */
  lemma {:induction false} MatchesRise(find: Matcher, length: Key -> nat, key: Key, offset: nat, n: nat)
    requires InRange(find, length)
    ensures Rising(Matches(find, key, offset, n), offset, length(key))
    decreases n
  {
    hide Rising;
    if n > 0 && find(key, offset).Some? {
      var (start, end) := find(key, offset).value;
      MatchesRise(find, length, key, NextOffset(start, end), n - 1);
      RisingFrom(start, end, Matches(find, key, NextOffset(start, end), n - 1), offset, length(key));
    } else {
      NoneRise(offset, length(key));
    }
  }

  lemma NoneRise(offset: nat, length: nat)
    ensures Rising([], offset, length)
  {
  }

  /** They come to an end: one of the first length + 2 calls answers false. */
  lemma {:induction false} MatchesEnd(find: Matcher, length: Key -> nat, key: Key, offset: nat, n: nat)
    requires InRange(find, length) && n + offset >= length(key) + 2
    ensures |Matches(find, key, offset, n)| < n || n == 0
    decreases n
  {
    if n > 0 && find(key, offset).Some? {
      var (start, end) := find(key, offset).value;
      MatchesEnd(find, length, key, NextOffset(start, end), n - 1);
    }
  }

  /** The calls of one pair answer with these matches, and the call behind them misses. */
  lemma {:induction false} AloneMatches(find: Matcher, key: Key, offset: nat, n: nat)
    ensures var ms := Matches(find, key, offset, n);
            && (forall i | 0 <= i < |ms| :: Alone(find, key, offset, n)[i] == Some(ms[i]))
            && (|ms| < n ==> Alone(find, key, offset, n)[|ms|] == None)
    decreases n
  {
    if n > 0 && find(key, offset).Some? {
      var (start, end) := find(key, offset).value;
      AloneMatches(find, key, NextOffset(start, end), n - 1);
    }
  }

  // ----- nothing is skipped -----

  ghost predicate MatchAt(find: Matcher, key: Key, at: nat) {
    find(key, at).Some? && find(key, at).value.0 == at
  }

  ghost predicate NoneBetween(find: Matcher, key: Key, from: nat, to: nat) {
    forall at | from <= at < to :: !MatchAt(find, key, at)
  }

  ghost predicate NoneFrom(find: Matcher, key: Key, from: nat) {
    forall at | from <= at :: !MatchAt(find, key, at)
  }

  /** The matcher answers with the first match at or behind the offset. */
  ghost predicate FindsFirst(find: Matcher) {
    forall key, from: nat ::
      if find(key, from).None? then NoneFrom(find, key, from)
      else MatchAt(find, key, find(key, from).value.0) && NoneBetween(find, key, from, find(key, from).value.0)
  }

  /** Where the search goes on behind a match: at its end, or one further if it is empty. */
  function Behind(m: (nat, nat)): nat { if m.0 == m.1 then m.1 + 1 else m.1 }

  /** No match lies in front of the first answer, between two answers that follow each
      other, or, if a call missed, behind the last one. */
  ghost predicate Complete(find: Matcher, key: Key, offset: nat, ms: seq<(nat, nat)>, missed: bool) {
    && (ms != [] ==> NoneBetween(find, key, offset, ms[0].0))
    && (forall i | 0 <= i < |ms| - 1 :: NoneBetween(find, key, Behind(ms[i]), ms[i + 1].0))
    && (missed ==> NoneFrom(find, key, if ms == [] then offset else Behind(ms[|ms| - 1])))
  }

  lemma {:induction false} MatchesComplete(find: Matcher, key: Key, offset: nat, n: nat)
    requires FindsFirst(find)
    ensures var ms := Matches(find, key, offset, n); Complete(find, key, offset, ms, |ms| < n)
    decreases n
  {
    hide NoneBetween, NoneFrom, MatchAt;
    if n > 0 && find(key, offset).Some? {
      var m := find(key, offset).value;
      var rest := Matches(find, key, NextOffset(m.0, m.1), n - 1);
      MatchesComplete(find, key, NextOffset(m.0, m.1), n - 1);
      MatchesUnfold(find, key, offset, n);
      var ms := Matches(find, key, offset, n);
      assert ms == [m] + rest;
      forall i | 0 <= i < |ms| - 1 ensures NoneBetween(find, key, Behind(ms[i]), ms[i + 1].0) {
        if i > 0 { assert ms[i] == rest[i - 1] && ms[i + 1] == rest[i]; }
      }
    }
  }

  lemma MatchesUnfold(find: Matcher, key: Key, offset: nat, n: nat)
    requires n > 0 && find(key, offset).Some?
    ensures var m := find(key, offset).value;
            Matches(find, key, offset, n) == [m] + Matches(find, key, NextOffset(m.0, m.1), n - 1)
  {
  }

  // ----- interleaved calls -----

  /** The calls for one of up to sixteen pairs, however they are interleaved with the calls
      for the others: they answer with matches inside the text that do not overlap and whose
      offsets rise strictly, one of the first length + 2 of them misses, and of a matcher
      that finds the first match they leave out none. */
  lemma CallsEnumerate(find: Matcher, length: Key -> nat, c: Cache, m: Offsets, calls: seq<Key>, pairs: set<Key>, key: Key)
    returns (ms: seq<(nat, nat)>)
    requires InRange(find, length) && Sound(c) && Holds(c, m) && m.Keys <= pairs && |pairs| <= 16
    requires forall i | 0 <= i < |calls| :: calls[i] in pairs
    ensures var answers := Answers(calls, Results(find, c, calls), key);
            var offset := if key in m then m[key] else 0;
            && |answers| == CountOf(calls, key) && |ms| <= |answers|
            && (forall i | 0 <= i < |ms| :: answers[i] == Some(ms[i])) && (|ms| < |answers| ==> answers[|ms|] == None)
            && Rising(ms, offset, length(key))
            && (|answers| >= length(key) + 2 ==> |ms| < |answers|)
            && (FindsFirst(find) ==> Complete(find, key, offset, ms, |ms| < |answers|))
  {
    hide Sound, Holds, Results, Answers, Alone, Matches, Rising, InRange, FindsFirst, Complete;
    var offset, n := OffsetOf(m, key), CountOf(calls, key);
    ms := Matches(find, key, offset, n);
    PairsIndependent(find, c, m, calls, pairs, key);
    AloneMatches(find, key, offset, n);
    MatchesRise(find, length, key, offset, n);
    if n >= length(key) + 2 { MatchesEnd(find, length, key, offset, n); }
    if FindsFirst(find) { MatchesComplete(find, key, offset, n); }
  }

  /** The state a closure starts with: every pair begins at offset 0. */
  lemma Fresh()
    ensures Sound(Cache([], 0)) && Holds(Cache([], 0), map[])
  {
  }

  // ----- the states of a closure -----

  class RegexStates {
    var entries: seq<Entry>
    var sequence: nat

    constructor ()
      ensures entries == [] && sequence == 0
    {
      entries, sequence := [], 0;
    }

    function Now(): Cache
      reads this
    {
      Cache(entries, sequence)
    }

    /** regex_hasmatch: the search, the choice of a slot, the match and its outcome. */
    method HasMatch(find: Matcher, key: Key) returns (found: bool)
      requires Sound(Now())
      modifies this
      ensures Sound(Now()) && Now() == Call(find, old(Now()), key).1 && found == Call(find, old(Now()), key).0.Some?
    {
      hide Sound, Slot;
      CallSound(find, Now(), key);
      SlotSound(Now(), key);
      var k := Locate(key);
      var m := find(key, entries[k].nextOffset);
      if m.None? {
        var last := |entries| - 1;
        entries := if k == last then entries[..last] else entries[..last][k := entries[last]];
        return false;
      }
      entries := entries[k := entries[k].(nextOffset := NextOffset(m.value.0, m.value.1))];
      found := true;
    }

    /** The entry for the pair, a new one, or the one used longest ago. */
    method Locate(key: Key) returns (k: nat)
      modifies this
      ensures (k, entries) == Slot(old(Now()), key) && sequence == old(sequence) + 1
    {
      k := 0;
      assert entries[0..] == entries;
      while k < |entries| && entries[k].key != key
        invariant unchanged(this) && k <= |entries| && Find(entries, key) == k + Find(entries[k..], key)
      {
        assert entries[k..][1..] == entries[k + 1..];
        k := k + 1;
      }
      sequence := sequence + 1;
      if k < |entries| {
        entries := entries[k := entries[k].(sequence := sequence)];
      } else if |entries| < MAX_STATES {
        entries := entries + [Entry(key, 0, sequence)];
      } else {
        k := FindOldest(entries);
        entries := entries[k := Entry(key, 0, sequence)];
      }
    }
  }

  method FindOldest(es: seq<Entry>) returns (k: nat)
    requires es != []
    ensures k == Oldest(es)
  {
    k := 0;
    for i := 1 to |es|
      invariant k == Oldest(es[..i])
    {
      assert es[..i + 1][..i] == es[..i];
      if es[i].sequence < es[k].sequence { k := i; }
    }
    assert es[..|es|] == es;
  }
}
