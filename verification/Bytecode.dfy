/** The serialised form of functions: what is written, what is read back, and when the
    constants keep their indices. */
module Bytecode {
  import opened Values
  import opened Instructions
  import Codegen

  const MAGIC := 0x534C_5950
  const VERSION := 1
  const U32_LIMIT: nat := 0x1_0000_0000
  const U64_LIMIT: nat := 0x1_0000_0000_0000_0000

  type Word64 = n: nat | n < 0x1_0000_0000_0000_0000

  /** A constant. Strings and other objects have an identity; two strings are the same
      constant only when they are the same object. */
  datatype Const =
    | NullConst
    | BoolConst(b: bool)
    | NumberConst(bits: Word64)
    | LongConst(bits: Word64)
    | DoubleConst(bits: Word64)
    | TextConst(id: nat, chars: seq<Byte>)
    | OtherConst(id: nat)

  datatype Function = Function(name: Option<seq<Byte>>, arity: nat, upvalues: nat, code: seq<Byte>, constants: seq<Const>)

  /** constants_equal. */
  predicate SameConst(a: Const, b: Const) {
    match (a, b)
    case (NullConst, NullConst) => true
    case (BoolConst(x), BoolConst(y)) => x == y
    case (NumberConst(x), NumberConst(y)) => Codegen.DoubleBitsEqual(x, y)
    case (LongConst(x), LongConst(y)) => x == y
    case (DoubleConst(x), DoubleConst(y)) => Codegen.DoubleBitsEqual(x, y)
    case (TextConst(x, _), TextConst(y, _)) => x == y
    case (OtherConst(x), OtherConst(y)) => x == y
    case _ => false
  }

  /** slp_chunk_add_constant. */
  function Added(pool: seq<Const>, c: Const): (r: seq<Const>)
    ensures pool <= r
  {
    if exists i | 0 <= i < |pool| :: SameConst(pool[i], c) then pool else pool + [c]
  }

  /** No constant equals an earlier one. */
  predicate Distinct(pool: seq<Const>) {
    forall i, j | 0 <= i < j < |pool| :: !SameConst(pool[i], pool[j])
  }

  /** Every pool built by adding constants is distinct. */
  lemma AddedDistinct(pool: seq<Const>, c: Const)
    requires Distinct(pool)
    ensures Distinct(Added(pool, c))
  {
  }

  // ----- big-endian numbers -----

  function Power256(n: nat): (p: nat)
    ensures p > 0
  {
    if n == 0 then 1 else 256 * Power256(n - 1)
  }

  /** The low `n` bytes of `v`, the most significant first. */
  function BigEndian(n: nat, v: nat): (r: seq<Byte>)
    ensures |r| == n
  {
    if n == 0 then [] else BigEndian(n - 1, v / 256) + [v % 256]
  }

  function FromBytes(bs: seq<Byte>): nat {
    if bs == [] then 0 else FromBytes(bs[..|bs| - 1]) * 256 + bs[|bs| - 1]
  }

  lemma {:induction false} BytesBack(n: nat, v: nat)
    requires v < Power256(n)
    ensures FromBytes(BigEndian(n, v)) == v
  {
    if n > 0 {
      BytesBack(n - 1, v / 256);
      assert BigEndian(n, v)[..n - 1] == BigEndian(n - 1, v / 256);
    }
  }

  lemma {:induction false} FromBytesBound(bs: seq<Byte>)
    ensures FromBytes(bs) < Power256(|bs|)
  {
    if bs != [] { FromBytesBound(bs[..|bs| - 1]); }
  }

  lemma Powers()
    ensures Power256(1) == 256 && Power256(4) == U32_LIMIT && Power256(8) == U64_LIMIT
  {
    assert Power256(2) == 256 * Power256(1);
    assert Power256(3) == 256 * Power256(2);
    assert Power256(4) == 256 * Power256(3);
    assert Power256(5) == 256 * Power256(4);
    assert Power256(6) == 256 * Power256(5);
    assert Power256(7) == 256 * Power256(6);
  }

  /** Words of four bytes, from the most significant byte on. */
  lemma FourBytes(v: nat)
    ensures U32(v) == [v / 0x100_0000 % 256, v / 0x1_0000 % 256, v / 256 % 256, v % 256]
  {
    assert BigEndian(1, v / 0x100_0000) == [v / 0x100_0000 % 256];
    assert v / 0x1_0000 / 256 == v / 0x100_0000 && v / 256 / 256 == v / 0x1_0000;
    assert BigEndian(2, v / 0x1_0000) == [v / 0x100_0000 % 256, v / 0x1_0000 % 256];
    assert BigEndian(3, v / 256) == [v / 0x100_0000 % 256, v / 0x1_0000 % 256, v / 256 % 256];
  }

  // ----- writing -----

  function U32(v: nat): (r: seq<Byte>)
    ensures |r| == 4
  {
    BigEndian(4, v)
  }

  /** serialize_value; constants of other kinds cannot be written. */
  function WriteConst(c: Const): Option<seq<Byte>> {
    match c
    case NullConst => Some([0])
    case BoolConst(b) => Some([1, if b then 1 else 0])
    case NumberConst(bits) => Some([2] + BigEndian(8, bits))
    case TextConst(_, chars) => Some([3] + U32(|chars|) + chars)
    case LongConst(bits) => Some([4] + BigEndian(8, bits))
    case DoubleConst(bits) => Some([5] + BigEndian(8, bits))
    case OtherConst(_) => None
  }

  function WriteConsts(pool: seq<Const>): Option<seq<Byte>> {
    if pool == [] then Some([])
    else
      var front := WriteConsts(pool[..|pool| - 1]);
      var last := WriteConst(pool[|pool| - 1]);
      if front.None? || last.None? then None else Some(front.value + last.value)
  }

  function Header(f: Function): seq<Byte> {
    var name := if f.name.Some? then f.name.value else [];
    U32(MAGIC) + U32(VERSION) + U32(|name|) + name + [f.arity % 256, f.upvalues % 256]
  }

  /** slp_bytecode_serialize_function. */
  function WriteFunction(f: Function): Option<seq<Byte>> {
    var consts := WriteConsts(f.constants);
    if consts.None? then None
    else Some(Header(f) + (U32(|f.code|) + f.code + U32(|f.constants|) + consts.value))
  }

  /** Every written function starts with the four letters of the format, version 1, the
      length of its name and the name, its arity and its number of upvalues. */
  lemma FileStart(f: Function)
    ensures var w, name := WriteFunction(f), if f.name.Some? then f.name.value else [];
            w.Some? ==>
              && |w.value| >= 14 + |name| && w.value[..8] == [0x53, 0x4C, 0x59, 0x50, 0, 0, 0, 1]
              && w.value[8..12] == U32(|name|) && w.value[12..12 + |name|] == name
              && w.value[12 + |name|] == f.arity % 256 && w.value[13 + |name|] == f.upvalues % 256
  {
    hide BigEndian, WriteConsts;
    FourBytes(MAGIC);
    FourBytes(VERSION);
    assert U32(MAGIC) == [0x53, 0x4C, 0x59, 0x50] && U32(VERSION) == [0, 0, 0, 1];
    var w := WriteFunction(f);
    if w.Some? {
      var name := if f.name.Some? then f.name.value else [];
      StartParts(U32(MAGIC), U32(VERSION), U32(|name|), name, f.arity % 256, f.upvalues % 256, w.value[|Header(f)|..]);
      assert w.value == Header(f) + w.value[|Header(f)|..];
    }
  }

  lemma StartParts(a: seq<Byte>, b: seq<Byte>, c: seq<Byte>, name: seq<Byte>, x: Byte, y: Byte, rest: seq<Byte>)
    requires |a| == |b| == |c| == 4
    ensures var w := a + b + c + name + [x, y] + rest;
            && w[..8] == a + b && w[8..12] == c && w[12..12 + |name|] == name && w[12 + |name|] == x && w[13 + |name|] == y
  {
  }

  // ----- reading -----

  /** A fixed number of bytes, or nothing when the input is too short. */
  function TakeNumber(n: nat, bs: seq<Byte>): Option<nat> {
    if |bs| < n then None else Some(FromBytes(bs[..n]))
  }

  datatype Read = Read(c: Const, rest: seq<Byte>)

  /** deserialize_value: an unknown tag or missing bytes give null; a new string gets the
      identity `id`. */
  function ReadConst(bs: seq<Byte>, id: nat): Read {
    if bs == [] then Read(NullConst, [])
    else
      var tag, rest := bs[0], bs[1..];
      if tag == 1 && |rest| >= 1 then Read(BoolConst(rest[0] != 0), rest[1..])
      else if (tag == 2 || tag == 4 || tag == 5) && |rest| >= 8 then
        FromBytesBound(rest[..8]);
        Powers();
        var bits := FromBytes(rest[..8]);
        Read(if tag == 2 then NumberConst(bits) else if tag == 4 then LongConst(bits) else DoubleConst(bits), rest[8..])
      else if tag == 3 && |rest| >= 4 then
        var n := FromBytes(rest[..4]);
        if n > |rest| - 4 then Read(NullConst, rest[4..]) else Read(TextConst(id, rest[4..4 + n]), rest[4 + n..])
      else Read(NullConst, rest)
  }

  /** `count` constants, each added to the pool; `id` and above are free identities. */
  function ReadConsts(bs: seq<Byte>, count: nat, pool: seq<Const>, id: nat): (seq<Const>, seq<Byte>) {
    if count == 0 then (pool, bs)
    else
      var r := ReadConst(bs, id);
      ReadConsts(r.rest, count - 1, Added(pool, r.c), id + 1)
  }

  /** slp_bytecode_deserialize_chunk. */
  function ReadChunk(bs: seq<Byte>, id: nat): Option<(seq<Byte>, seq<Const>, seq<Byte>)> {
    if |bs| < 4 then None
    else
      var count, rest := FromBytes(bs[..4]), bs[4..];
      if count > |rest| then None
      else if |rest| < count + 4 then None
      else
        var (pool, after) := ReadConsts(rest[count + 4..], FromBytes(rest[count..count + 4]), [], id);
        Some((rest[..count], pool, after))
  }

  /** slp_bytecode_deserialize_function. */
  function ReadFunction(bs: seq<Byte>, id: nat): Option<(Function, seq<Byte>)> {
    if |bs| < 12 || FromBytes(bs[..4]) != MAGIC || FromBytes(bs[4..8]) != VERSION then None
    else ReadBody(FromBytes(bs[8..12]), bs[12..], id)
  }

  /** What follows the length of the name. */
  function ReadBody(length: nat, rest: seq<Byte>, id: nat): Option<(Function, seq<Byte>)> {
    if length > |rest| || |rest| < length + 2 then None
    else
      match ReadChunk(rest[length + 2..], id)
      case None => None
      case Some((code, constants, after)) =>
        Some((Function(if length == 0 then None else Some(rest[..length]), rest[length], rest[length + 1], code, constants),
              after))
  }

  // ----- constants round trip -----

  /** The constant a reader makes: the same, but a string is a new object. */
  function Renewed(c: Const, id: nat): Const {
    if c.TextConst? then TextConst(id, c.chars) else c
  }

  predicate Writable(c: Const) {
    !c.OtherConst? && (c.TextConst? ==> |c.chars| < U32_LIMIT)
  }

  lemma ReadWritten(c: Const, rest: seq<Byte>, id: nat)
    requires Writable(c)
    ensures WriteConst(c).Some? && ReadConst(WriteConst(c).value + rest, id) == Read(Renewed(c, id), rest)
  {
    hide BigEndian, FromBytes, Power256;
    Powers();
    var bs := WriteConst(c).value + rest;
    match c
    case NullConst => assert bs[1..] == rest;
    case BoolConst(b) => assert bs[1..] == [if b then 1 else 0] + rest;
    case NumberConst(bits) => WrittenBits(2, bits, rest);
    case LongConst(bits) => WrittenBits(4, bits, rest);
    case DoubleConst(bits) => WrittenBits(5, bits, rest);
    case TextConst(_, chars) =>
      BytesBack(4, |chars|);
      assert bs[1..] == U32(|chars|) + (chars + rest);
      assert bs[1..][..4] == U32(|chars|);
      assert bs[1..][4..4 + |chars|] == chars && bs[1..][4 + |chars|..] == rest;
  }

  lemma WrittenBits(tag: Byte, bits: Word64, rest: seq<Byte>)
    ensures var bs := [tag] + BigEndian(8, bits) + rest;
            && |bs[1..]| >= 8 && FromBytes(bs[1..][..8]) == bits && bs[1..][8..] == rest
  {
    hide BigEndian, FromBytes, Power256;
    Powers();
    BytesBack(8, bits);
    var bs := [tag] + BigEndian(8, bits) + rest;
    assert bs[1..] == BigEndian(8, bits) + rest;
    assert bs[1..][..8] == BigEndian(8, bits);
  }

  /** The constants of `pool` from index `k` on, with new identities from `id`. */
  function Renew(pool: seq<Const>, id: nat): (r: seq<Const>)
    ensures |r| == |pool|
    ensures forall i | 0 <= i < |pool| :: r[i] == Renewed(pool[i], id + i)
  {
    seq(|pool|, i requires 0 <= i < |pool| => Renewed(pool[i], id + i))
  }

  /** What adding all constants of `cs` one after the other gives. */
  function AddAll(pool: seq<Const>, cs: seq<Const>): (r: seq<Const>)
    ensures pool <= r
    decreases |cs|
  {
    if cs == [] then pool else AddAll(Added(pool, cs[0]), cs[1..])
  }

  lemma {:induction false} WriteHead(pool: seq<Const>)
    requires pool != [] && forall i | 0 <= i < |pool| :: Writable(pool[i])
    ensures WriteConsts(pool).Some? && WriteConst(pool[0]).Some? && WriteConsts(pool[1..]).Some?
    ensures WriteConsts(pool).value == WriteConst(pool[0]).value + WriteConsts(pool[1..]).value
    decreases |pool|
  {
    hide WriteConst, WriteConsts, ReadConst;
    var n := |pool| - 1;
    ReadWritten(pool[n], [], 0);
    WriteLast(pool);
    if n == 0 {
      NothingWritten(pool[..0]);
      NothingWritten(pool[1..]);
    } else {
      WriteHead(pool[..n]);
      WriteLast(pool[1..]);
      assert pool[1..][..n - 1] == pool[..n][1..];
    }
  }

  lemma WriteLast(pool: seq<Const>)
    requires pool != []
    ensures var front, last := WriteConsts(pool[..|pool| - 1]), WriteConst(pool[|pool| - 1]);
            WriteConsts(pool) == if front.None? || last.None? then None else Some(front.value + last.value)
  {
  }

  lemma NothingWritten(pool: seq<Const>)
    requires pool == []
    ensures WriteConsts(pool) == Some([])
  {
  }

  /** Reading what was written adds the renewed constants one after the other. */
  lemma {:induction false} ReadsAll(cs: seq<Const>, pool: seq<Const>, rest: seq<Byte>, id: nat)
    requires forall i | 0 <= i < |cs| :: Writable(cs[i])
    ensures WriteConsts(cs).Some?
    ensures ReadConsts(WriteConsts(cs).value + rest, |cs|, pool, id) == (AddAll(pool, Renew(cs, id)), rest)
    decreases |cs|
  {
    hide WriteConst, ReadConst, Writable, Added;
    if cs == [] {
      assert WriteConsts(cs).value + rest == rest;
    } else {
      WriteHead(cs);
      var after := WriteConsts(cs[1..]).value + rest;
      ReadWritten(cs[0], after, id);
      assert WriteConsts(cs).value + rest == WriteConst(cs[0]).value + after;
      ReadsAll(cs[1..], Added(pool, Renewed(cs[0], id)), rest, id + 1);
      assert Renew(cs, id)[1..] == Renew(cs[1..], id + 1);
    }
  }

  // ----- when indices are kept -----

  /** Adding constants keeps every index exactly when the list is distinct. */
  lemma {:induction false} IndicesKept(pool: seq<Const>, cs: seq<Const>)
    requires Distinct(pool)
    ensures AddAll(pool, cs) == pool + cs <==> Distinct(pool + cs)
    ensures |AddAll(pool, cs)| <= |pool| + |cs|
    ensures Distinct(AddAll(pool, cs))
    decreases |cs|
  {
    hide Distinct, SameConst, Added;
    if cs == [] {
      assert pool + cs == pool;
    } else {
      AddedDistinct(pool, cs[0]);
      IndicesKept(Added(pool, cs[0]), cs[1..]);
      AddedCases(pool, cs);
    }
  }

  /** The first constant either repeats an earlier one or is appended. */
  lemma AddedCases(pool: seq<Const>, cs: seq<Const>)
    requires cs != []
    ensures Added(pool, cs[0]) == pool ==> !Distinct(pool + cs)
    ensures Added(pool, cs[0]) == pool || Added(pool, cs[0]) == pool + [cs[0]]
    ensures pool + [cs[0]] + cs[1..] == pool + cs
    ensures |Added(pool, cs[0])| <= |pool| + 1
  {
    hide SameConst;
    if exists i | 0 <= i < |pool| :: SameConst(pool[i], cs[0]) {
      var i :| 0 <= i < |pool| && SameConst(pool[i], cs[0]);
      assert (pool + cs)[i] == pool[i] && (pool + cs)[|pool|] == cs[0];
    }
  }

  /** Renewed strings never coincide, so only the other constants matter. */
  predicate DistinctBesideTexts(cs: seq<Const>) {
    forall i, j | 0 <= i < j < |cs| && !cs[i].TextConst? :: !SameConst(cs[i], cs[j])
  }

  lemma RenewedDistinct(cs: seq<Const>, id: nat)
    ensures Distinct(Renew(cs, id)) <==> DistinctBesideTexts(cs)
    ensures Distinct(cs) ==> DistinctBesideTexts(cs)
  {
    var r := Renew(cs, id);
    forall i, j | 0 <= i < j < |cs| ensures SameConst(r[i], r[j]) <==> (!cs[i].TextConst? && SameConst(cs[i], cs[j])) {
    }
  }

  // ----- functions round trip -----

  predicate Storable(f: Function) {
    && |f.code| < U32_LIMIT && |f.constants| < U32_LIMIT && (f.name.Some? ==> |f.name.value| < U32_LIMIT)
    && (forall i | 0 <= i < |f.constants| :: Writable(f.constants[i]))
  }

  /** The function a reader makes from what a writer wrote. */
  function Reloaded(f: Function, id: nat): Function {
    Function(if f.name == Some([]) then None else f.name, f.arity % 256, f.upvalues % 256, f.code,
             AddAll([], Renew(f.constants, id)))
  }

  /** Reading consumes exactly the bytes written and gives code, name, arity and upvalue
      count back. */
  lemma ReadBack(f: Function, rest: seq<Byte>, id: nat)
    requires Storable(f)
    ensures WriteFunction(f).Some? && ReadFunction(WriteFunction(f).value + rest, id) == Some((Reloaded(f, id), rest))
  {
    hide U32, FromBytes, WriteConsts, ReadConsts, AddAll, Renew, Writable, ReadChunk;
    ReadsAll(f.constants, [], rest, id);
    var name := if f.name.Some? then f.name.value else [];
    var chunk := U32(|f.code|) + f.code + U32(|f.constants|) + WriteConsts(f.constants).value;
    ChunkBack(f.code, f.constants, WriteConsts(f.constants).value, rest, id);
    HeaderBack(name, f.arity % 256, f.upvalues % 256, chunk + rest);
    assert WriteFunction(f).value + rest == Header(f) + (chunk + rest);
  }

  lemma Number4(v: nat)
    requires v < U32_LIMIT
    ensures FromBytes(U32(v)) == v
  {
    Powers();
    BytesBack(4, v);
  }

  lemma ChunkBack(code: seq<Byte>, constants: seq<Const>, written: seq<Byte>, rest: seq<Byte>, id: nat)
    requires |code| < U32_LIMIT && |constants| < U32_LIMIT
    requires ReadConsts(written + rest, |constants|, [], id) == (AddAll([], Renew(constants, id)), rest)
    ensures ReadChunk(U32(|code|) + code + U32(|constants|) + written + rest, id)
            == Some((code, AddAll([], Renew(constants, id)), rest))
  {
    hide FromBytes, U32, ReadConsts, AddAll, Renew;
    Number4(|code|);
    Number4(|constants|);
    ChunkParts(U32(|code|), code, U32(|constants|), written, rest);
  }

  lemma ChunkParts(a: seq<Byte>, code: seq<Byte>, b: seq<Byte>, written: seq<Byte>, rest: seq<Byte>)
    requires |a| == 4 && |b| == 4
    ensures var bs := a + code + b + written + rest;
            && bs[..4] == a && bs[4..][..|code|] == code
            && bs[4..][|code|..|code| + 4] == b && bs[4..][|code| + 4..] == written + rest
  {
    var bs := a + code + b + written + rest;
    assert bs[4..] == code + (b + (written + rest));
  }

  lemma HeaderBack(name: seq<Byte>, arity: Byte, upvalues: Byte, rest: seq<Byte>)
    requires |name| < U32_LIMIT
    ensures var bs := U32(MAGIC) + U32(VERSION) + U32(|name|) + name + [arity, upvalues] + rest;
            && |bs| >= 12 && FromBytes(bs[..4]) == MAGIC && FromBytes(bs[4..8]) == VERSION
            && FromBytes(bs[8..12]) == |name|
            && var r := bs[12..];
               |r| >= |name| + 2 && r[..|name|] == name && r[|name|] == arity && r[|name| + 1] == upvalues
               && r[|name| + 2..] == rest
  {
    Number4(MAGIC);
    Number4(VERSION);
    Number4(|name|);
    hide FromBytes, U32;
    HeaderParts(U32(MAGIC), U32(VERSION), U32(|name|), name, [arity, upvalues], rest);
  }

  lemma HeaderParts(a: seq<Byte>, b: seq<Byte>, c: seq<Byte>, name: seq<Byte>, two: seq<Byte>, rest: seq<Byte>)
    requires |a| == 4 && |b| == 4 && |c| == 4 && |two| == 2
    ensures var bs := a + b + c + name + two + rest;
            && bs[..4] == a && bs[4..8] == b && bs[8..12] == c
            && bs[12..][..|name|] == name && bs[12..][|name|] == two[0] && bs[12..][|name| + 1] == two[1]
            && bs[12..][|name| + 2..] == rest
  {
  }

  lemma NothingTwice()
    ensures Distinct([])
  {
  }

  /** Every constant comes back under its own index, strings as new objects with the same
      characters, exactly when no two constants other than strings are equal; a pool the
      compiler filled never has two equal constants. */
  lemma ConstantsKeepIndices(f: Function, rest: seq<Byte>, id: nat)
    requires Storable(f)
    ensures WriteFunction(f).Some? && ReadFunction(WriteFunction(f).value + rest, id).Some?
    ensures ReadFunction(WriteFunction(f).value + rest, id).value.0.constants == Renew(f.constants, id)
            <==> DistinctBesideTexts(f.constants)
    ensures Distinct(f.constants) ==> DistinctBesideTexts(f.constants)
  {
    hide WriteFunction, ReadFunction, AddAll, Distinct, DistinctBesideTexts, SameConst, Renew, Writable;
    ReadBack(f, rest, id);
    assert Distinct([]) by { NothingTwice(); }
    IndicesKept([], Renew(f.constants, id));
    RenewedDistinct(f.constants, id);
    assert [] + Renew(f.constants, id) == Renew(f.constants, id);
  }

  /** Arity and upvalue count survive exactly when they fit a byte. */
  lemma CountsKept(f: Function, rest: seq<Byte>, id: nat)
    requires Storable(f)
    ensures WriteFunction(f).Some? && ReadFunction(WriteFunction(f).value + rest, id).Some?
    ensures var g := ReadFunction(WriteFunction(f).value + rest, id).value.0;
            && (g.arity == f.arity <==> f.arity < 256) && (g.upvalues == f.upvalues <==> f.upvalues < 256)
            && (g.name == f.name <==> f.name != Some([]))
  {
    ReadBack(f, rest, id);
    hide WriteFunction, ReadFunction, AddAll;
  }
}
