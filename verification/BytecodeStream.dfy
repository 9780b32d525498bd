/** The writer with its growing buffer and the reader with its offset. */
module BytecodeStream {
  import opened Values
  import opened Instructions
  import opened Bytecode

  /** Byte `i` of a big-endian number is the number shifted right. */
  lemma {:induction false} ByteAt(n: nat, v: nat, i: nat)
    requires i < n
    ensures BigEndian(n, v)[i] == v / Power256(n - 1 - i) % 256
  {
    if i < n - 1 {
      ByteAt(n - 1, v / 256, i);
      DivideTwice(v, 256, Power256(n - 2 - i));
    } else {
      assert Power256(0) == 1;
    }
  }

  lemma DivideTwice(v: nat, a: nat, b: nat)
    requires a > 0 && b > 0
    ensures a * b > 0 && v / a / b == v / (a * b)
  {
    var q, r := v / a, v % a;
    var q2, r2 := q / b, q % b;
    assert v == a * q + r && q == b * q2 + r2;
    Distribute(a, b, q2, r2, r);
    Quotient(v, a * b, q2);
  }

  lemma Distribute(a: nat, b: nat, q: nat, r2: nat, r: nat)
    requires 0 < a && r2 < b && r < a
    ensures a * b > 0 && a * b * q <= a * (b * q + r2) + r < a * b * (q + 1)
  {
    assert a * (b * q + r2) == a * b * q + a * r2;
    Mono(a, b - 1, r2);
    assert a * (b - 1) == a * b - a;
    assert a * b * (q + 1) == a * b * q + a * b;
  }

  lemma Mono(d: nat, x: nat, y: nat)
    requires x >= y
    ensures d * x >= d * y
  {
  }

  lemma Quotient(v: nat, d: nat, q: nat)
    requires d > 0 && d * q <= v < d * (q + 1)
    ensures v / d == q
  {
    var k := v / d;
    assert d * k <= v < d * (k + 1);
    if k + 1 <= q { Mono(d, q, k + 1); }
    if q + 1 <= k { Mono(d, k, q + 1); }
  }

  class Writer {
    var bytes: seq<Byte>

    constructor ()
      ensures bytes == []
    {
      bytes := [];
    }

    method Write(data: seq<Byte>)
      modifies this
      ensures bytes == old(bytes) + data
    {
      bytes := bytes + data;
    }

    /** write_u8 truncates to a byte. */
    method WriteU8(v: nat)
      modifies this
      ensures bytes == old(bytes) + [v % 256]
    {
      Write([v % 256]);
    }

    method WriteU32(v: nat)
      modifies this
      ensures bytes == old(bytes) + U32(v)
    {
      Write(Split(4, v));
      assert Split(4, v) == U32(v) by { SplitIs(4, v); }
    }

    method WriteU64(v: nat)
      modifies this
      ensures bytes == old(bytes) + BigEndian(8, v)
    {
      var buf: seq<Byte> := [];
      for i := 0 to 8
        invariant |buf| == i && forall j | 0 <= j < i :: buf[j] == BigEndian(8, v)[j]
        invariant bytes == old(bytes)
      {
        ByteAt(8, v, i);
        buf := buf + [v / Power256(7 - i) % 256];
      }
      assert buf == BigEndian(8, v);
      Write(buf);
    }

    /** serialize_value. */
    method SerializeValue(c: Const) returns (ok: bool)
      modifies this
      ensures ok == WriteConst(c).Some?
      ensures bytes == old(bytes) + (if ok then WriteConst(c).value else [])
    {
      hide BigEndian, U32;
      ok := true;
      match c
      case NullConst => WriteU8(0);
      case BoolConst(b) =>
        WriteU8(1);
        WriteU8(if b then 1 else 0);
      case NumberConst(bits) => WriteTagged(2, bits);
      case TextConst(_, chars) =>
        WriteU8(3);
        WriteU32(|chars|);
        Write(chars);
        assert old(bytes) + [3] + U32(|chars|) + chars == old(bytes) + ([3] + U32(|chars|) + chars);
      case LongConst(bits) => WriteTagged(4, bits);
      case DoubleConst(bits) => WriteTagged(5, bits);
      case OtherConst(_) => ok := false;
    }

    method WriteTagged(tag: Byte, bits: Word64)
      modifies this
      ensures bytes == old(bytes) + ([tag] + BigEndian(8, bits))
    {
      hide BigEndian;
      WriteU8(tag);
      WriteU64(bits);
    }

    /** slp_bytecode_serialize_chunk. */
    method SerializeChunk(code: seq<Byte>, constants: seq<Const>) returns (ok: bool)
      modifies this
      ensures ok == WriteConsts(constants).Some?
      ensures ok ==> bytes == old(bytes) + (U32(|code|) + code + U32(|constants|) + WriteConsts(constants).value)
    {
      hide U32, WriteConst, WriteConsts;
      NothingWritten([]);
      WriteU32(|code|);
      Write(code);
      WriteU32(|constants|);
      ghost var head := U32(|code|) + code + U32(|constants|);
      for i := 0 to |constants|
        invariant WriteConsts(constants[..i]).Some? && bytes == old(bytes) + (head + WriteConsts(constants[..i]).value)
      {
        PrefixWritten(constants, i);
        var written := SerializeValue(constants[i]);
        if !written {
          NoneWritten(constants, i + 1);
          return false;
        }
      }
      assert constants[..|constants|] == constants;
      ok := true;
    }

    /** slp_bytecode_serialize_function. */
    method SerializeFunction(f: Function) returns (ok: bool)
      modifies this
      ensures ok == WriteFunction(f).Some?
      ensures ok ==> bytes == old(bytes) + WriteFunction(f).value
    {
      hide U32, WriteConsts;
      var name := if f.name.Some? then f.name.value else [];
      WriteU32(MAGIC);
      WriteU32(VERSION);
      WriteU32(|name|);
      if |name| > 0 {
        Write(name);
      }
      WriteU8(f.arity);
      WriteU8(f.upvalues);
      assert bytes == old(bytes) + Header(f);
      ok := SerializeChunk(f.code, f.constants);
    }
  }

  /** The bytes of `v` by shifting, as the writers compute them. */
  function Split(n: nat, v: nat): (r: seq<Byte>)
    ensures |r| == n
  {
    seq(n, i requires 0 <= i < n => v / Power256(n - 1 - i) % 256)
  }

  lemma SplitIs(n: nat, v: nat)
    ensures Split(n, v) == BigEndian(n, v)
  {
    forall i | 0 <= i < n ensures Split(n, v)[i] == BigEndian(n, v)[i] {
      ByteAt(n, v, i);
    }
  }

  lemma PrefixWritten(pool: seq<Const>, i: nat)
    requires i < |pool|
    ensures var front, last := WriteConsts(pool[..i]), WriteConst(pool[i]);
            WriteConsts(pool[..i + 1]) == if front.None? || last.None? then None else Some(front.value + last.value)
  {
    WriteLast(pool[..i + 1]);
    assert pool[..i + 1][..i] == pool[..i];
  }

  lemma {:induction false} NoneWritten(pool: seq<Const>, i: nat)
    requires i <= |pool| && WriteConsts(pool[..i]).None?
    ensures WriteConsts(pool).None?
    decreases |pool| - i
  {
    if i == |pool| {
      assert pool[..i] == pool;
    } else {
      PrefixWritten(pool, i);
      NoneWritten(pool, i + 1);
    }
  }

  class Reader {
    const data: seq<Byte>
    var offset: nat

    ghost predicate Valid()
      reads this
    {
      offset <= |data|
    }

    ghost function Rest(): seq<Byte>
      reads this
      requires Valid()
    {
      data[offset..]
    }

    constructor (data: seq<Byte>)
      ensures Valid() && Rest() == data
    {
      this.data := data;
      offset := 0;
    }

    /** slp_bytecode_reader_read: all the bytes or none, and then the offset stays. */
    method Read(length: nat) returns (out: Option<seq<Byte>>)
      requires Valid()
      modifies this
      ensures Valid()
      ensures if |old(Rest())| < length then out == None && Rest() == old(Rest())
              else out == Some(old(Rest())[..length]) && Rest() == old(Rest())[length..]
    {
      if offset + length > |data| {
        return None;
      }
      out := Some(data[offset..offset + length]);
      assert data[offset..][..length] == data[offset..offset + length];
      offset := offset + length;
    }

    /** read_u32 and read_u64: a fold over the bytes. */
    method ReadNumber(length: nat) returns (out: Option<nat>)
      requires Valid()
      modifies this
      ensures Valid() && out == TakeNumber(length, old(Rest()))
      ensures Rest() == if out.None? then old(Rest()) else old(Rest())[length..]
    {
      var buf := Read(length);
      if buf.None? {
        return None;
      }
      var bs := buf.value;
      var v: nat := 0;
      for i := 0 to |bs|
        invariant v == FromBytes(bs[..i]) && Valid()
        invariant Rest() == old(Rest())[length..]
      {
        assert bs[..i + 1][..i] == bs[..i];
        v := v * 256 + bs[i];
      }
      assert bs[..|bs|] == bs;
      out := Some(v);
    }

    /** deserialize_value: `id` is the identity a new string object gets. */
    method DeserializeValue(id: nat) returns (c: Const)
      requires Valid()
      modifies this
      ensures Valid() && ReadConst(old(Rest()), id) == Bytecode.Read(c, Rest())
    {
      hide FromBytes, Power256;
      c := NullConst;
      var tag := Read(1);
      if tag.None? {
        assert old(Rest()) == [];
        return;
      }
      ghost var rest := Rest();
      var t := tag.value[0];
      if t == 1 {
        var b := Read(1);
        if b.Some? { c := BoolConst(b.value[0] != 0); }
      } else if t == 2 || t == 4 || t == 5 {
        var bits := ReadNumber(8);
        if bits.Some? {
          FromBytesBound(rest[..8]);
          Powers();
          c := if t == 2 then NumberConst(bits.value) else if t == 4 then LongConst(bits.value) else DoubleConst(bits.value);
        }
      } else if t == 3 {
        var length := ReadNumber(4);
        if length.Some? && length.value <= |data| - offset {
          var chars := Read(length.value);
          c := TextConst(id, chars.value);
          assert rest[4..][..length.value] == rest[4..4 + length.value];
          assert rest[4..][length.value..] == rest[4 + length.value..];
        }
      }
    }

    /** slp_bytecode_deserialize_chunk: code byte by byte, then the constants through
        slp_chunk_add_constant. */
    method DeserializeChunk(id: nat) returns (r: Option<(seq<Byte>, seq<Const>)>)
      requires Valid()
      modifies this
      ensures Valid()
      ensures match ReadChunk(old(Rest()), id)
              case None => r == None
              case Some((code, constants, rest)) => r == Some((code, constants)) && Rest() == rest
    {
      hide FromBytes, ReadConsts, ReadConst, Added;
      var codeCount := ReadNumber(4);
      if codeCount.None? {
        return None;
      }
      ghost var rest := Rest();
      var count := codeCount.value;
      var code: seq<Byte> := [];
      for i := 0 to count
        invariant Valid() && i <= |rest| && code == rest[..i] && Rest() == rest[i..]
      {
        var byte := Read(1);
        if byte.None? {
          return None;
        }
        code := code + byte.value;
        assert rest[i..][1..] == rest[i + 1..];
      }
      var constCount := ReadNumber(4);
      if constCount.None? {
        return None;
      }
      assert rest[count..][..4] == rest[count..count + 4] && rest[count..][4..] == rest[count + 4..];
      var n := constCount.value;
      var pool: seq<Const> := [];
      ghost var whole := ReadConsts(rest[count + 4..], n, [], id);
      for i := 0 to n
        invariant Valid() && whole == ReadConsts(Rest(), n - i, pool, id + i)
      {
        ReadNext(Rest(), n - i, pool, id + i);
        var c := DeserializeValue(id + i);
        pool := AddConstant(pool, c);
      }
      NoneToRead(Rest(), pool, id + n);
      r := Some((code, pool));
    }

    /** slp_bytecode_deserialize_function. */
    method DeserializeFunction(id: nat) returns (r: Option<Function>)
      requires Valid()
      modifies this
      ensures Valid()
      ensures match ReadFunction(old(Rest()), id)
              case None => r == None
              case Some((f, rest)) => r == Some(f) && Rest() == rest
    {
      hide FromBytes, ReadChunk;
      ghost var bs := Rest();
      HeaderViews(bs);
      var magic := ReadNumber(4);
      if magic != Some(MAGIC) {
        return None;
      }
      var version := ReadNumber(4);
      if version != Some(VERSION) {
        return None;
      }
      var nameLength := ReadNumber(4);
      if nameLength.None? {
        return None;
      }
      r := DeserializeBody(nameLength.value, id);
    }

    /** Name, counts and chunk. */
    method DeserializeBody(length: nat, id: nat) returns (r: Option<Function>)
      requires Valid()
      modifies this
      ensures Valid()
      ensures match ReadBody(length, old(Rest()), id)
              case None => r == None
              case Some((f, rest)) => r == Some(f) && Rest() == rest
    {
      hide ReadChunk;
      ghost var rest := Rest();
      var name: Option<seq<Byte>> := None;
      if length > 0 {
        if length > |data| - offset {
          return None;
        }
        name := Read(length);
      }
      assert Rest() == rest[length..];
      var arity := Read(1);
      if arity.None? {
        return None;
      }
      assert rest[length..][1..] == rest[length + 1..];
      var upvalues := Read(1);
      if upvalues.None? {
        return None;
      }
      assert rest[length + 1..][1..] == rest[length + 2..];
      var chunk := DeserializeChunk(id);
      if chunk.None? {
        return None;
      }
      r := Some(Function(name, arity.value[0], upvalues.value[0], chunk.value.0, chunk.value.1));
    }
  }

  lemma HeaderViews(bs: seq<Byte>)
    ensures |bs| >= 8 ==> bs[4..][..4] == bs[4..8] && bs[4..][4..] == bs[8..]
    ensures |bs| >= 12 ==> bs[8..][..4] == bs[8..12] && bs[8..][4..] == bs[12..]
  {
  }

  /** slp_chunk_add_constant. */
  method AddConstant(pool: seq<Const>, c: Const) returns (r: seq<Const>)
    ensures r == Added(pool, c)
  {
    hide SameConst;
    for i := 0 to |pool|
      invariant forall j | 0 <= j < i :: !SameConst(pool[j], c)
    {
      if SameConst(pool[i], c) {
        return pool;
      }
    }
    r := pool + [c];
  }

  lemma ReadNext(bs: seq<Byte>, count: nat, pool: seq<Const>, id: nat)
    requires count > 0
    ensures var r := ReadConst(bs, id); ReadConsts(bs, count, pool, id) == ReadConsts(r.rest, count - 1, Added(pool, r.c), id + 1)
  {
    hide ReadConst, Added;
  }

  lemma NoneToRead(bs: seq<Byte>, pool: seq<Const>, id: nat)
    ensures ReadConsts(bs, 0, pool, id) == (pool, bs)
  {
  }

  /** A function written and read back: code, name, arity, upvalue count and every
      constant at its index, and nothing left over. */
  method StoreAndLoad(f: Function, id: nat) returns (g: Option<Function>)
    requires Storable(f) && DistinctBesideTexts(f.constants)
    ensures g == Some(Function(if f.name == Some([]) then None else f.name, f.arity % 256, f.upvalues % 256, f.code,
                               Renew(f.constants, id)))
  {
    hide WriteFunction, ReadFunction, DistinctBesideTexts, Storable, Renew, AddAll;
    var writer := new Writer();
    var ok := writer.SerializeFunction(f);
    ReadBack(f, [], id);
    ConstantsKeepIndices(f, [], id);
    assert writer.bytes == WriteFunction(f).value + [];
    var reader := new Reader(writer.bytes);
    g := reader.DeserializeFunction(id);
  }
}
