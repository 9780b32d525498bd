/** What the arithmetic, comparison, bit and logic instructions push, in terms of integers
    only: the machine's results are the C operations at 32 and 64 bits. */
module Arithmetic {
  import opened Values
  import opened Instructions
  import opened Machine

  /** Values that stand for a whole number: arrays and other objects count as 0. */
  predicate Whole(v: Value) { v.Null? || v.Bool? || v.Int? || v.Long? || v.Object? }

  function Number(v: Value): int
    requires Whole(v)
  {
    match v
    case Int(i) => i
    case Long(l) => l
    case Bool(b) => if b then 1 else 0
    case _ => 0
  }

  /** The result is a long if it has to be, and congruent to `exact` at its width. The
      ranges of Int and Long leave one such number. */
  predicate Wrapped(r: Value, long: bool, exact: int) {
    if long then r.Long? && (r.l - exact) % 0x1_0000_0000_0000_0000 == 0
    else r.Int? && (r.i - exact) % 0x1_0000_0000 == 0
  }

  /** Wrapping changes nothing that fits. */
  lemma WrappedIs(r: Value, long: bool, exact: int)
    requires Wrapped(r, long, exact)
    ensures long && -0x8000_0000_0000_0000 <= exact < 0x8000_0000_0000_0000 ==> r == Long(exact)
    ensures !long && -0x8000_0000 <= exact < 0x8000_0000 ==> r == Int(exact)
  {
  }

  /** Addition, subtraction and multiplication. */
  lemma RingOperations(p: Program, st: Store, temps: seq<Value>, op: BinaryOp, a: Value, b: Value) returns (r: Value)
    requires Whole(a) && Whole(b) && (op.Add? || op.Subtract? || op.Multiply?)
    ensures Apply(p, Binary(op), st, temps + [a, b]) == Continue(st, temps + [r], 0)
    ensures var i, j := Number(a), Number(b);
            Wrapped(r, a.Long? || b.Long?, if op.Add? then i + j else if op.Subtract? then i - j else i * j)
  {
    hide Apply, Wrapped, Wrap32, Wrap64;
    var i, j := Number(a), Number(b);
    WrapIs(if op.Add? then i + j else if op.Subtract? then i - j else i * j);
    r := Pushed(p, st, temps, op, a, b);
  }

  /** What stands on top after a two-operand instruction that does not fail. */
  lemma Pushed(p: Program, st: Store, temps: seq<Value>, op: BinaryOp, a: Value, b: Value) returns (r: Value)
    requires BinaryResult(p.env.host, op, a, b).Some?
    ensures Apply(p, Binary(op), st, temps + [a, b]) == Continue(st, temps + [r], 0)
    ensures BinaryResult(p.env.host, op, a, b) == Some(r)
  {
    hide BinaryResult;
    r := BinaryResult(p.env.host, op, a, b).value;
    Apply2(p, st, temps, op, a, b);
  }

  lemma Apply2(p: Program, st: Store, temps: seq<Value>, op: BinaryOp, a: Value, b: Value)
    ensures Apply(p, Binary(op), st, temps + [a, b]) ==
            match BinaryResult(p.env.host, op, a, b) { case None => Fault case Some(r) => Continue(st, temps + [r], 0) }
  {
    hide BinaryResult;
    var all := temps + [a, b];
    assert all[..|all| - 2] == temps && all[|all| - 2] == a && all[|all| - 1] == b;
  }

  lemma Apply1(temps: seq<Value>, a: Value)
    ensures var all := temps + [a]; all[..|all| - 1] == temps && all[|all| - 1] == a
  {
  }

  /** Division and remainder: truncated toward zero, with a remainder of the dividend's sign.
      Division by zero stops the machine. */
  lemma Division(p: Program, st: Store, temps: seq<Value>, a: Value, b: Value) returns (q: int, r: int, v: Value, w: Value)
    requires Whole(a) && Whole(b)
    ensures var i, j, long := Number(a), Number(b), a.Long? || b.Long?;
            if j == 0 then
              && Apply(p, Binary(Divide), st, temps + [a, b]) == Fault
              && Apply(p, Binary(Modulo), st, temps + [a, b]) == Fault
            else
              && i == j * q + r && (if j < 0 then j < r < -j else -j < r < j) && (r == 0 || (r < 0 <==> i < 0))
              && Apply(p, Binary(Divide), st, temps + [a, b]) == Continue(st, temps + [v], 0) && Wrapped(v, long, q)
              && Apply(p, Binary(Modulo), st, temps + [a, b]) == Continue(st, temps + [w], 0) && Wrapped(w, long, r)
  {
    hide Apply, BinaryResult, TruncatedQuotient, TruncatedRemainder, Wrapped;
    q, r, v, w := 0, 0, Null, Null;
    var i, j := Number(a), Number(b);
    Apply2(p, st, temps, Divide, a, b);
    Apply2(p, st, temps, Modulo, a, b);
    Quotients(p.env.host, a, b);
    if j != 0 {
      q, r := TruncatedQuotient(i, j), TruncatedRemainder(i, j);
      Truncation(i, j);
      v := Pushed(p, st, temps, Divide, a, b);
      w := Pushed(p, st, temps, Modulo, a, b);
    }
  }

  lemma Quotients(host: Host, a: Value, b: Value)
    requires Whole(a) && Whole(b)
    ensures var i, j, long := Number(a), Number(b), a.Long? || b.Long?;
            var v, w := BinaryResult(host, Divide, a, b), BinaryResult(host, Modulo, a, b);
            if j == 0 then v == None && w == None
            else v.Some? && w.Some? && Wrapped(v.value, long, TruncatedQuotient(i, j)) && Wrapped(w.value, long, TruncatedRemainder(i, j))
  {
    hide TruncatedQuotient, TruncatedRemainder, Wrap32, Wrap64, Wrapped;
    if Number(b) != 0 {
      WrapIs(TruncatedQuotient(Number(a), Number(b)));
      WrapIs(TruncatedRemainder(Number(a), Number(b)));
    }
  }

  lemma Truncation(i: int, j: int)
    requires j != 0
    ensures var q, r := TruncatedQuotient(i, j), TruncatedRemainder(i, j);
            i == j * q + r && (if j < 0 then j < r < -j else -j < r < j) && (r == 0 || (r < 0 <==> i < 0))
  {
    var m, n := Magnitude(i), Magnitude(j);
    var k: int := m / n;
    Divided(m, n);
    Signed(n, k);
    assert j * TruncatedQuotient(i, j) == if i < 0 then 0 - n * k else n * k;
  }

  lemma Divided(m: nat, n: nat)
    requires n > 0
    ensures m == n * (m / n) + m % n && 0 <= m % n < n
  {
  }

  lemma Signed(n: int, k: int)
    ensures (0 - n) * k == 0 - n * k && n * (0 - k) == 0 - n * k && (0 - n) * (0 - k) == n * k
  {
  }

  /** Unary minus, increment and decrement. */
  lemma UnaryOperations(p: Program, st: Store, temps: seq<Value>, a: Value) returns (minus: Value, more: Value, less: Value)
    requires Whole(a)
    ensures Apply(p, Negate, st, temps + [a]) == Continue(st, temps + [minus], 0) && Wrapped(minus, a.Long?, -Number(a))
    ensures Apply(p, Increment, st, temps + [a]) == Continue(st, temps + [more], 0) && Wrapped(more, a.Long?, Number(a) + 1)
    ensures Apply(p, Decrement, st, temps + [a]) == Continue(st, temps + [less], 0) && Wrapped(less, a.Long?, Number(a) - 1)
  {
    Apply1(temps, a);
    var host := p.env.host;
    minus, more, less := NegateResult(host, a), StepResult(host, a, true), StepResult(host, a, false);
  }

  /** With a double among the operands the result is a double. */
  lemma DoubleOperations(p: Program, st: Store, temps: seq<Value>, op: BinaryOp, a: Value, b: Value) returns (r: Value)
    requires (a.Double? || b.Double?) && (op.Add? || op.Subtract? || op.Multiply? || op.Divide?)
    ensures Apply(p, Binary(op), st, temps + [a, b]) == Continue(st, temps + [r], 0) && r.Double?
    ensures r.bits == (p.env.host.doubleArith)(op, (p.env.host.asDouble)(a), (p.env.host.asDouble)(b))
  {
    hide Apply;
    r := Pushed(p, st, temps, op, a, b);
  }

  // ----- comparisons -----

  /** Values that are not longs compare as integers. */
  lemma Comparisons(p: Program, st: Store, temps: seq<Value>, a: Value, b: Value)
    requires Whole(a) && Whole(b) && !a.Long? && !b.Long? && !a.Object? && !b.Object?
    ensures var i, j, all := Number(a), Number(b), temps + [a, b];
            && Apply(p, Binary(Less), st, all) == Continue(st, temps + [Bool(i < j)], 0)
            && Apply(p, Binary(Greater), st, all) == Continue(st, temps + [Bool(i > j)], 0)
            && Apply(p, Binary(LessEqual), st, all) == Continue(st, temps + [Bool(i <= j)], 0)
            && Apply(p, Binary(GreaterEqual), st, all) == Continue(st, temps + [Bool(i >= j)], 0)
            && Apply(p, Binary(Spaceship), st, all) == Continue(st, temps + [Int(if i < j then -1 else if i == j then 0 else 1)], 0)
  {
    hide Apply;
    Apply2(p, st, temps, Less, a, b);
    Apply2(p, st, temps, Greater, a, b);
    Apply2(p, st, temps, LessEqual, a, b);
    Apply2(p, st, temps, GreaterEqual, a, b);
    Apply2(p, st, temps, Spaceship, a, b);
  }

  /** Equality: two integers by their number, and a value that is not a number only equals
      itself. */
  lemma Equality(p: Program, st: Store, temps: seq<Value>, a: Value, b: Value)
    requires (a.Int? && b.Int?) || !(a.Int? || a.Long? || a.Double?) || !(b.Int? || b.Long? || b.Double?)
    ensures Apply(p, Binary(Equal), st, temps + [a, b]) == Continue(st, temps + [Bool(a == b)], 0)
    ensures Apply(p, Binary(NotEqual), st, temps + [a, b]) == Continue(st, temps + [Bool(a != b)], 0)
  {
    hide Apply;
    Apply2(p, st, temps, Equal, a, b);
    Apply2(p, st, temps, NotEqual, a, b);
  }

  /** The spacing of doubles around `m`: numbers from 2^53 on are not all representable. */
  function Spacing(m: nat): (g: nat)
    ensures g >= 1 && m < 0x20_0000_0000_0000 * g
    ensures m >= 0x20_0000_0000_0000 ==> m >= 0x10_0000_0000_0000 * g
    ensures m < 0x20_0000_0000_0000 <==> g == 1
  {
    if m < 0x20_0000_0000_0000 then 1 else 2 * Spacing(m / 2)
  }

  /** The double nearest to a whole number, the even one of two: IEEE 754, section 4.3.1. */
  function Nearest(m: nat): nat {
    var g := Spacing(m);
    Halfway(m / g, m % g, g) * g
  }

  /** `q` or its successor, as the rest `r` of `g` demands. */
  function Halfway(q: nat, r: nat, g: nat): nat {
    if 2 * r > g || (2 * r == g && q % 2 == 1) then q + 1 else q
  }

  function Rounded(x: int): int { if x < 0 then 0 - Nearest(-x) as int else Nearest(x) }

  /** The host converts numbers to doubles and compares doubles as IEEE 754 says. */
  ghost predicate Ieee(host: Host) {
    forall a: Value, b: Value | (a.Int? || a.Long?) && (b.Int? || b.Long?) ::
      var x, y := (host.asDouble)(a), (host.asDouble)(b);
      && ((host.doubleLess)(x, y) <==> Rounded(Number(a)) < Rounded(Number(b)))
      && ((host.doubleLessEqual)(x, y) <==> Rounded(Number(a)) <= Rounded(Number(b)))
      && ((host.doubleEqual)(x, y) <==> Rounded(Number(a)) == Rounded(Number(b)))
  }

  /** There are such hosts. */
  lemma IeeeHosts() returns (host: Host)
    ensures Ieee(host)
  {
    var shift := 0x8000_0000_0000_0000;
    host := Host((v: Value) => if v.Int? || v.Long? then Number(v) + shift else 0,
                 (op, x, y) => 0, x => 0,
                 (x, y) => Rounded(x - shift) < Rounded(y - shift),
                 (x, y) => Rounded(x - shift) <= Rounded(y - shift),
                 (x, y) => Rounded(x - shift) == Rounded(y - shift),
                 x => 0, x => 0, (v: Value) => []);
  }

  lemma {:induction false} SpacingGrows(m: nat, n: nat)
    requires m <= n
    ensures Spacing(m) == Spacing(n) || 2 * Spacing(m) <= Spacing(n)
    decreases m
  {
    if m >= 0x20_0000_0000_0000 { SpacingGrows(m / 2, n / 2); }
  }

  lemma NearestExact(m: nat)
    requires m < 0x20_0000_0000_0000
    ensures Nearest(m) == m
  {
  }

  lemma Times(a: int, b: int, g: nat)
    requires a <= b
    ensures a * g <= b * g
  {
  }

  lemma NearestMonotone(m: nat, n: nat)
    requires m <= n
    ensures Nearest(m) <= Nearest(n)
  {
    hide Halfway;
    var g, h := Spacing(m), Spacing(n);
    SpacingGrows(m, n);
    if g == h {
      SameSpacing(m, n, g);
    } else {
      SmallQuotient(m, g, 0x20_0000_0000_0000);
      LargeQuotient(n, h, 0x10_0000_0000_0000);
      OtherSpacing(m / g, m % g, g, n / h, n % h, h);
    }
  }

  lemma SameSpacing(m: nat, n: nat, g: nat)
    requires m <= n && g > 0
    ensures Halfway(m / g, m % g, g) * g <= Halfway(n / g, n % g, g) * g
  {
    QuotientMonotone(m, n, g);
    Times(Halfway(m / g, m % g, g), Halfway(n / g, n % g, g), g);
  }

  lemma OtherSpacing(q: nat, r: nat, g: nat, s: nat, t: nat, h: nat)
    requires q < 0x20_0000_0000_0000 && s >= 0x10_0000_0000_0000 && 2 * g <= h
    ensures Halfway(q, r, g) * g <= Halfway(s, t, h) * h
  {
    Times(Halfway(q, r, g), 0x20_0000_0000_0000, g);
    Times(0x10_0000_0000_0000, Halfway(s, t, h), h);
  }

  lemma QuotientMonotone(m: nat, n: nat, g: nat)
    requires m <= n && g > 0
    ensures m / g <= n / g && (m / g == n / g ==> m % g <= n % g)
  {
    var q, s := m / g, n / g;
    if s < q { Times(s + 1, q, g); }
  }

  lemma SmallQuotient(m: nat, g: nat, k: nat)
    requires g > 0 && m < k * g
    ensures m / g < k
  {
    if m / g >= k { Times(k, m / g, g); }
  }

  lemma LargeQuotient(m: nat, g: nat, k: nat)
    requires g > 0 && m >= k * g
    ensures m / g >= k
  {
    if m / g < k { Times(m / g + 1, k, g); }
  }

  lemma RoundedMonotone(x: int, y: int)
    requires x <= y
    ensures Rounded(x) <= Rounded(y)
    ensures -0x20_0000_0000_0000 < x < 0x20_0000_0000_0000 ==> Rounded(x) == x
  {
    hide Nearest;
    if -0x20_0000_0000_0000 < x < 0x20_0000_0000_0000 { NearestExact(if x < 0 then -x else x); }
    if x >= 0 { NearestMonotone(x, y); }
    if y < 0 { NearestMonotone(-y, -x); }
  }

  /** Longs, alone or with an int, compare as doubles: every comparison is that of the
      integers exactly unless the two are different and round to the same double. */
  lemma LongComparisons(p: Program, st: Store, temps: seq<Value>, a: Value, b: Value)
    requires Ieee(p.env.host) && (a.Int? || a.Long?) && (b.Int? || b.Long?) && (a.Long? || b.Long?)
    ensures var i, j, all := Number(a), Number(b), temps + [a, b];
            var same := Rounded(i) == Rounded(j);
            && Apply(p, Binary(Less), st, all) == Continue(st, temps + [Bool(i < j && !same)], 0)
            && Apply(p, Binary(Greater), st, all) == Continue(st, temps + [Bool(i > j && !same)], 0)
            && Apply(p, Binary(LessEqual), st, all) == Continue(st, temps + [Bool(i <= j || same)], 0)
            && Apply(p, Binary(GreaterEqual), st, all) == Continue(st, temps + [Bool(i >= j || same)], 0)
            && Apply(p, Binary(Equal), st, all) == Continue(st, temps + [Bool(i == j || same)], 0)
            && Apply(p, Binary(NotEqual), st, all) == Continue(st, temps + [Bool(i != j && !same)], 0)
            && Apply(p, Binary(Spaceship), st, all) == Continue(st, temps + [Int(if same then 0 else if i < j then -1 else 1)], 0)
  {
    hide Apply, BinaryResult, Rounded;
    LongResults(p.env.host, a, b);
    Apply2(p, st, temps, Less, a, b);
    Apply2(p, st, temps, Greater, a, b);
    Apply2(p, st, temps, LessEqual, a, b);
    Apply2(p, st, temps, GreaterEqual, a, b);
    Apply2(p, st, temps, Equal, a, b);
    Apply2(p, st, temps, NotEqual, a, b);
    Apply2(p, st, temps, Spaceship, a, b);
  }

  lemma LongResults(host: Host, a: Value, b: Value)
    requires Ieee(host) && (a.Int? || a.Long?) && (b.Int? || b.Long?) && (a.Long? || b.Long?)
    ensures var i, j := Number(a), Number(b);
            var same := Rounded(i) == Rounded(j);
            && BinaryResult(host, Less, a, b) == Some(Bool(i < j && !same))
            && BinaryResult(host, Greater, a, b) == Some(Bool(i > j && !same))
            && BinaryResult(host, LessEqual, a, b) == Some(Bool(i <= j || same))
            && BinaryResult(host, GreaterEqual, a, b) == Some(Bool(i >= j || same))
            && BinaryResult(host, Equal, a, b) == Some(Bool(i == j || same))
            && BinaryResult(host, NotEqual, a, b) == Some(Bool(i != j && !same))
            && BinaryResult(host, Spaceship, a, b) == Some(Int(if same then 0 else if i < j then -1 else 1))
  {
    hide Rounded;
    var i, j := Number(a), Number(b);
    if i <= j { RoundedMonotone(i, j); } else { RoundedMonotone(j, i); }
  }

  /** 2^53 and 2^53 + 1 are equal to the machine. */
  lemma LongsConfused(p: Program, st: Store, temps: seq<Value>)
    requires Ieee(p.env.host)
    ensures Apply(p, Binary(Equal), st, temps + [Long(0x20_0000_0000_0000), Long(0x20_0000_0000_0001)])
         == Continue(st, temps + [Bool(true)], 0)
  {
    hide Apply;
    assert Spacing(0x20_0000_0000_0000) == 2 && Spacing(0x20_0000_0000_0001) == 2;
    assert Rounded(0x20_0000_0000_0000) == Rounded(0x20_0000_0000_0001);
    LongComparisons(p, st, temps, Long(0x20_0000_0000_0000), Long(0x20_0000_0000_0001));
  }

  // ----- text -----

  /** Concatenation and repetition of texts. */
  lemma TextOperations(p: Program, st: Store, temps: seq<Value>, a: string, b: string, n: Int32)
    ensures Apply(p, Binary(Concat), st, temps + [Text(a), Text(b)]) == Continue(st, temps + [Text(a + b)], 0)
    ensures var e := Apply(p, Binary(Repeat), st, temps + [Text(a), Int(n)]);
            if n <= 0 || a == [] then e == Continue(st, temps + [Text([])], 0)
            else if |a| * n >= 0x1_0000_0000 then e == Fault
            else e.Continue? && e.st == st && e.jump == 0 && |e.temps| == |temps| + 1 && e.temps[..|temps|] == temps
                 && var r := e.temps[|temps|];
                    r.Text? && |r.chars| == |a| * n && forall k | 0 <= k < |a| * n :: r.chars[k] == a[k % |a|]
  {
    hide Apply, RepeatText;
    Apply2(p, st, temps, Concat, Text(a), Text(b));
    Apply2(p, st, temps, Repeat, Text(a), Int(n));
    if n > 0 && a != [] { Repeated(a, n); }
  }

  lemma {:induction false} Repeated(s: string, n: nat)
    requires s != []
    ensures |RepeatText(s, n)| == |s| * n && forall k | 0 <= k < |s| * n :: RepeatText(s, n)[k] == s[k % |s|]
  {
    if n > 0 {
      Repeated(s, n - 1);
      assert |s| * n == |s| + |s| * (n - 1);
      OnceMore(s, RepeatText(s, n - 1));
    }
  }

  lemma OnceMore(s: string, rest: string)
    requires s != [] && forall k | 0 <= k < |rest| :: rest[k] == s[k % |s|]
    ensures forall k | 0 <= k < |s| + |rest| :: (s + rest)[k] == s[k % |s|]
  {
    forall k | 0 <= k < |s| + |rest| ensures (s + rest)[k] == s[k % |s|] {
      if k >= |s| { RemainderBack(k, |s|); } else { Quotient(k, |s|, 0, k); }
    }
  }

  lemma RemainderBack(k: nat, n: nat)
    requires 0 < n <= k
    ensures (k - n) % n == k % n
  {
    Quotient(k - n, n, k / n - 1, k % n);
  }

  // ----- truth -----

  /** The values that count as false: null, false and the zeros. */
  predicate CountsAsFalse(v: Value) {
    v in {Null, Bool(false), Int(0), Long(0), Double(0), Double(0x8000_0000_0000_0000)}
  }

  /** `!` and all conditional jumps agree on them. */
  lemma Truth(p: Program, st: Store, temps: seq<Value>, a: Value, offset: Short)
    ensures var f := CountsAsFalse(a);
            && Apply(p, Not, st, temps + [a]) == Continue(st, temps + [Bool(f)], 0)
            && Apply(p, JumpIfFalse(offset), st, temps + [a]) == Continue(st, temps + [a], if f then offset else 0)
            && Apply(p, AndJump(offset), st, temps + [a]) == (if f then Continue(st, temps + [a], offset) else Continue(st, temps, 0))
            && Apply(p, OrJump(offset), st, temps + [a]) == (if f then Continue(st, temps, 0) else Continue(st, temps + [a], offset))
  {
    Apply1(temps, a);
  }

  // ----- shifts and bits -----

  function TwoTo(n: nat): (p: nat)
    ensures p > 0
  {
    if n == 0 then 1 else TwoTo(n - 1) + TwoTo(n - 1)
  }

  lemma {:induction false} TwoToIs(n: nat)
    ensures Pow2(n) == TwoTo(n)
  {
    if n > 0 { TwoToIs(n - 1); }
  }

  /** Bit `k` of a number in two's complement. */
  function Bit(x: int, k: nat): int { x / TwoTo(k) % 2 }

  /** One bit of `&`, `|` or `^`. */
  function BitOf(op: BinaryOp, x: int, y: int): int {
    if op.BitAnd? then (if x == y == 1 then 1 else 0)
    else if op.BitOr? then (if x == 1 || y == 1 then 1 else 0)
    else (if x != y then 1 else 0)
  }

  /** Shifts: the left operand alone decides the width, and the shift is taken modulo it. */
  lemma Shifts(p: Program, st: Store, temps: seq<Value>, a: Value, b: Value) returns (left: Value, right: Value)
    requires Whole(a) && Whole(b) && !b.Long?
    ensures var shift := Number(b) % (if a.Long? then 64 else 32);
            && Apply(p, Binary(ShiftLeft), st, temps + [a, b]) == Continue(st, temps + [left], 0)
            && Wrapped(left, a.Long?, Number(a) * TwoTo(shift))
            && Apply(p, Binary(ShiftRight), st, temps + [a, b]) == Continue(st, temps + [right], 0)
            && Wrapped(right, a.Long?, Number(a) / TwoTo(shift))
  {
    hide Apply, BinaryResult, Wrapped, TwoTo;
    ShiftWords(p.env.host, a, b);
    left := Pushed(p, st, temps, ShiftLeft, a, b);
    right := Pushed(p, st, temps, ShiftRight, a, b);
  }

  lemma ShiftWords(host: Host, a: Value, b: Value)
    requires Whole(a) && Whole(b) && !b.Long?
    ensures var shift := Number(b) % (if a.Long? then 64 else 32);
            var l, r := BinaryResult(host, ShiftLeft, a, b), BinaryResult(host, ShiftRight, a, b);
            && l.Some? && Wrapped(l.value, a.Long?, Number(a) * TwoTo(shift))
            && r.Some? && Wrapped(r.value, a.Long?, Number(a) / TwoTo(shift))
  {
    hide Wrap32, Wrap64, Wrapped, TwoTo, Pow2;
    var i, shift := Number(a), Number(b) % (if a.Long? then 64 else 32);
    TwoToIs(shift);
    WrapIs(i * TwoTo(shift));
    WrapIs(i / TwoTo(shift));
    ShiftsAre(host, a, b);
  }

  lemma WrapIs(x: int)
    ensures Wrapped(Long(Wrap64(x)), true, x) && Wrapped(Int(Wrap32(x)), false, x)
  {
  }

  lemma ShiftsAre(host: Host, a: Value, b: Value)
    requires Whole(a) && Whole(b) && !b.Long?
    ensures var i, n := Number(a), Pow2(Number(b) % (if a.Long? then 64 else 32));
            && BinaryResult(host, ShiftLeft, a, b) == Some(if a.Long? then Long(Wrap64(i * n)) else Int(Wrap32(i * n)))
            && BinaryResult(host, ShiftRight, a, b) == Some(if a.Long? then Long(Wrap64(i / n)) else Int(Wrap32(i / n)))
  {
    hide Wrap32, Wrap64, Pow2;
  }

  /** Each bit of the result is the operation on the bits of the operands. */
  lemma BitOperations(p: Program, st: Store, temps: seq<Value>, op: BinaryOp, a: Value, b: Value) returns (r: Value)
    requires Whole(a) && Whole(b) && (op.BitAnd? || op.BitOr? || op.BitXor?)
    ensures Apply(p, Binary(op), st, temps + [a, b]) == Continue(st, temps + [r], 0)
    ensures if a.Long? || b.Long? then r.Long? else r.Int?
    ensures forall k: nat | k < (if a.Long? || b.Long? then 64 else 32) ::
              Bit(Number(r), k) == BitOf(op, Bit(Number(a), k), Bit(Number(b), k))
  {
    hide Apply;
    r := Pushed(p, st, temps, op, a, b);
    Words(p.env.host, op, a, b);
    hide BinaryResult, Bitwise, Bit, BitOf;
    forall k: nat | k < (if a.Long? || b.Long? then 64 else 32)
      ensures Bit(Number(r), k) == BitOf(op, Bit(Number(a), k), Bit(Number(b), k))
    {
      var width := if a.Long? || b.Long? then 64 else 32;
      BitOfWords(op, Number(a), Number(b), width, k);
      SameBit(Number(r), Bitwise(op, Number(a) % TwoTo(width), Number(b) % TwoTo(width), width), width, k);
    }
  }

  /** The result is congruent to the operation on the operands as unsigned words. */
  lemma Words(host: Host, op: BinaryOp, a: Value, b: Value)
    requires Whole(a) && Whole(b) && (op.BitAnd? || op.BitOr? || op.BitXor?)
    ensures var long, o := a.Long? || b.Long?, BinaryResult(host, op, a, b);
            var width := if long then 64 else 32;
            && o.Some? && (if long then o.value.Long? else o.value.Int?)
            && (Number(o.value) - Bitwise(op, Number(a) % TwoTo(width), Number(b) % TwoTo(width), width)) % TwoTo(width) == 0
  {
    hide Bitwise, Pow2;
    Widths();
    hide TwoTo;
  }

  lemma BitOfWords(op: BinaryOp, x: int, y: int, width: nat, k: nat)
    requires k < width && (op.BitAnd? || op.BitOr? || op.BitXor?)
    ensures Bit(Bitwise(op, x % TwoTo(width), y % TwoTo(width), width), k) == BitOf(op, Bit(x, k), Bit(y, k))
  {
    hide Bitwise, Bit, BitOf, TwoTo;
    BitwiseBit(op, x % TwoTo(width), y % TwoTo(width), width, k);
    BitOfRemainder(x, width, k);
    BitOfRemainder(y, width, k);
  }

  lemma Widths()
    ensures TwoTo(32) == 0x1_0000_0000 && TwoTo(64) == 0x1_0000_0000_0000_0000
  {
    assert TwoTo(8) == 256;
    assert TwoTo(16) == 0x1_0000;
    assert TwoTo(24) == 0x100_0000;
    assert TwoTo(32) == 0x1_0000_0000;
    assert TwoTo(40) == 0x100_0000_0000;
    assert TwoTo(48) == 0x1_0000_0000_0000;
    assert TwoTo(56) == 0x100_0000_0000_0000;
  }

  /** Halving a number moves its bits down. */
  lemma {:induction false} BitHalf(x: int, k: nat)
    requires k > 0
    ensures Bit(x, k) == Bit(x / 2, k - 1)
  {
    QuotientTwice(x, TwoTo(k - 1));
  }

  lemma QuotientTwice(x: int, n: nat)
    requires n > 0
    ensures x / (n + n) == x / 2 / n
  {
    var q, r := x / (n + n), x % (n + n);
    assert x == 2 * (n * q) + r;
    assert x / 2 == n * q + r / 2;
    assert 0 <= r / 2 < n;
    Quotient(x / 2, n, q, r / 2);
  }

  lemma Quotient(x: int, n: nat, q: int, r: int)
    requires n > 0 && x == n * q + r && 0 <= r < n
    ensures x / n == q && x % n == r
  {
    var a := x / n;
    if a > q { AtLeast(n, a - q); }
    if a < q { AtLeast(n, q - a); }
  }

  lemma AtLeast(n: nat, d: int)
    requires d >= 1
    ensures n * d >= n
  {
  }

  /** Numbers congruent modulo a power of two agree on all bits below it. */
  lemma {:induction false} SameBit(x: int, y: int, width: nat, k: nat)
    requires k < width && (x - y) % TwoTo(width) == 0
    ensures Bit(x, k) == Bit(y, k)
    decreases k
  {
    var d := (x - y) / TwoTo(width);
    var half := TwoTo(width - 1);
    assert x - y == TwoTo(width) * d == 2 * (half * d);
    if k > 0 {
      assert x / 2 - y / 2 == half * d;
      Quotient(x / 2 - y / 2, half, d, 0);
      SameBit(x / 2, y / 2, width - 1, k - 1);
      BitHalf(x, k);
      BitHalf(y, k);
    }
  }

  lemma BitOfRemainder(x: int, width: nat, k: nat)
    requires k < width
    ensures Bit(x % TwoTo(width), k) == Bit(x, k)
  {
    var n := TwoTo(width);
    var q := x / n;
    assert x - x % n == n * q;
    Quotient(x - x % n, n, q, 0);
    SameBit(x, x % n, width, k);
  }

  lemma {:induction false} BitwiseBit(op: BinaryOp, a: nat, b: nat, width: nat, k: nat)
    requires k < width && (op.BitAnd? || op.BitOr? || op.BitXor?)
    ensures Bit(Bitwise(op, a, b, width), k) == BitOf(op, Bit(a, k), Bit(b, k))
    decreases k
  {
    var w := Bitwise(op, a, b, width);
    var rest := Bitwise(op, a / 2, b / 2, width - 1);
    assert w / 2 == rest && w % 2 == BitOf(op, a % 2, b % 2);
    if k > 0 {
      BitwiseBit(op, a / 2, b / 2, width - 1, k - 1);
      BitHalf(w, k);
      BitHalf(a, k);
      BitHalf(b, k);
    }
  }
}
