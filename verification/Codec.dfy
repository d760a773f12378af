/** The tagged binary format of `lua_serialize` on byte sequences: what is written for a value and what is read
    back. */
module Codec {
  import opened Options
  import opened Buffers

  // ----- little-endian integers -----

  function Pow256(n: nat): (p: nat)
    ensures p > 0
  {
    if n == 0 then 1 else 256 * Pow256(n - 1)
  }

  /** The `n` low bytes of the two's complement of `v`, lowest first. */
  function ToBytes(v: int, n: nat): (b: seq<Byte>)
    ensures |b| == n
    decreases n
  {
    if n == 0 then [] else [v % 256] + ToBytes(v / 256, n - 1)
  }

  function Unsigned(b: seq<Byte>): (v: nat)
    ensures v < Pow256(|b|)
  {
    if b == [] then 0 else b[0] + 256 * Unsigned(b[1..])
  }

  function Signed(b: seq<Byte>): (v: int)
    ensures 0 <= 2 * v + Pow256(|b|) && 2 * v < Pow256(|b|)
  {
    if 2 * Unsigned(b) < Pow256(|b|) then Unsigned(b) else Unsigned(b) - Pow256(|b|)
  }

  lemma {:induction false} UnsignedToBytes(v: int, n: nat)
    requires 0 <= v < Pow256(n)
    ensures Unsigned(ToBytes(v, n)) == v
    decreases n
  {
    if n > 0 {
      UnsignedToBytes(v / 256, n - 1);
      assert ToBytes(v, n)[1..] == ToBytes(v / 256, n - 1);
    }
  }

  lemma {:induction false} ToBytesWraps(v: int, n: nat)
    ensures ToBytes(v, n) == ToBytes(v + Pow256(n), n)
    decreases n
  {
    if n > 0 {
      var m := Pow256(n - 1);
      assert (v + 256 * m) / 256 == v / 256 + m && (v + 256 * m) % 256 == v % 256;
      ToBytesWraps(v / 256, n - 1);
    }
  }

  lemma SignedToBytes(v: int, n: nat)
    requires 0 <= 2 * v + Pow256(n) && 2 * v < Pow256(n)
    ensures Signed(ToBytes(v, n)) == v
  {
    if v >= 0 {
      UnsignedToBytes(v, n);
    } else {
      ToBytesWraps(v, n);
      UnsignedToBytes(v + Pow256(n), n);
    }
  }

  lemma Pow256Values()
    ensures Pow256(1) == 0x100 && Pow256(2) == 0x1_0000 && Pow256(4) == 0x1_0000_0000
    ensures Pow256(8) == 0x1_0000_0000_0000_0000
  {
    assert Pow256(2) == 0x1_0000;
    assert Pow256(4) == 0x1_0000_0000;
    assert Pow256(6) == 0x1_0000_0000_0000;
  }

  // ----- values as the runtime holds them -----

  type Int64 = v: int | -0x8000_0000_0000_0000 <= v < 0x8000_0000_0000_0000

  /** A Lua value with all that the runtime may choose about its tables: the length it reports for the array part
      and the order in which it iterates over the entries. Reals and pointers are opaque eight-byte strings. */
  datatype LuaValue =
    | Nil
    | Boolean(b: bool)
    | Integer(i: Int64)
    | Real(bits: seq<Byte>)
    | Str(s: seq<Byte>)
    | Pointer(bits: seq<Byte>)
    | Table(rawlen: nat, entries: seq<Entry>)
    | Unsupported

  datatype Entry = Entry(key: LuaValue, val: LuaValue)

  /** What a value is, apart from those choices. Keys that are tables are compared by identity in Lua, so every such
      entry stands for itself. */
  datatype Value =
    | VNil
    | VBoolean(b: bool)
    | VInteger(i: Int64)
    | VReal(bits: seq<Byte>)
    | VStr(s: seq<Byte>)
    | VPointer(bits: seq<Byte>)
    | VTable(content: Content)
    | VUnsupported

  datatype Content = Content(fields: map<Value, Value>, byTable: multiset<(Value, Value)>)

  const EMPTY := Content(map[], multiset{})

  /** `t[k] = v` */
  function RawSet(t: Content, k: Value, v: Value): Content {
    if k.VTable? then
      if v.VNil? then t else t.(byTable := t.byTable + multiset{(k, v)})
    else
      t.(fields := if v.VNil? then t.fields - {k} else t.fields[k := v])
  }

  function Abs(v: LuaValue): Value
    decreases v, 1
  {
    match v
    case Nil => VNil
    case Boolean(b) => VBoolean(b)
    case Integer(i) => VInteger(i)
    case Real(bits) => VReal(bits)
    case Str(s) => VStr(s)
    case Pointer(bits) => VPointer(bits)
    case Table(_, entries) => VTable(AbsEntries(v, |entries|))
    case Unsupported => VUnsupported
  }

  /** The first `n` entries of a table. */
  function AbsEntries(t: LuaValue, n: nat): Content
    requires t.Table? && n <= |t.entries|
    decreases t, 0, n
  {
    if n == 0 then EMPTY
    else RawSet(AbsEntries(t, n - 1), Abs(t.entries[n - 1].key), Abs(t.entries[n - 1].val))
  }

  // ----- writing -----

  const MAX_COOKIE: nat := 32
  const MAX_DEPTH: nat := 32

  const TYPE_NIL: Byte := 0
  const TYPE_BOOLEAN: Byte := 1
  const TYPE_NUMBER: Byte := 2
  const TYPE_USERDATA: Byte := 3
  const TYPE_SHORT_STRING: Byte := 4
  const TYPE_LONG_STRING: Byte := 5
  const TYPE_TABLE: Byte := 6

  const NUMBER_ZERO: nat := 0
  const NUMBER_BYTE: nat := 1
  const NUMBER_WORD: nat := 2
  const NUMBER_DWORD: nat := 4
  const NUMBER_QWORD: nat := 6
  const NUMBER_REAL: nat := 8

  /** `t | v << 3` for a type below 8 */
  function Combine(t: Byte, v: nat): Byte
    requires t < 8 && v < 32
  {
    t + 8 * v
  }

  function IntegerBytes(v: Int64): seq<Byte> {
    if v == 0 then [Combine(TYPE_NUMBER, NUMBER_ZERO)]
    else if !(-0x8000_0000 <= v < 0x8000_0000) then [Combine(TYPE_NUMBER, NUMBER_QWORD)] + ToBytes(v, 8)
    else if v < 0 then [Combine(TYPE_NUMBER, NUMBER_DWORD)] + ToBytes(v, 4)
    else if v < 0x100 then [Combine(TYPE_NUMBER, NUMBER_BYTE)] + ToBytes(v, 1)
    else if v < 0x1_0000 then [Combine(TYPE_NUMBER, NUMBER_WORD)] + ToBytes(v, 2)
    else [Combine(TYPE_NUMBER, NUMBER_DWORD)] + ToBytes(v, 4)
  }

  function StringBytes(s: seq<Byte>): seq<Byte> {
    if |s| < MAX_COOKIE then [Combine(TYPE_SHORT_STRING, |s|)] + s
    else if |s| < 0x1_0000 then [Combine(TYPE_LONG_STRING, 2)] + ToBytes(|s|, 2) + s
    else [Combine(TYPE_LONG_STRING, 4)] + ToBytes(|s|, 4) + s
  }

  function ArrayHeader(n: nat): seq<Byte>
    requires n < 0x8000_0000
  {
    if n >= MAX_COOKIE - 1 then [Combine(TYPE_TABLE, MAX_COOKIE - 1)] + IntegerBytes(n)
    else [Combine(TYPE_TABLE, n)]
  }

  datatype Packed = Bytes(b: seq<Byte>) | Refused

  function Then(p: Packed, q: Packed): Packed {
    if p.Bytes? && q.Bytes? then Bytes(p.b + q.b) else Refused
  }

  predicate IsIndex(key: LuaValue, i: int) {
    key.Integer? && key.i == i
  }

  /** `lua_rawgeti`: the entry with integer key `i`, if there is one. */
  function Find(entries: seq<Entry>, i: int): (j: int)
    ensures -1 <= j < |entries|
    ensures j >= 0 ==> IsIndex(entries[j].key, i)
    ensures j < 0 ==> forall k :: 0 <= k < |entries| ==> !IsIndex(entries[k].key, i)
    decreases |entries|
  {
    if entries == [] then -1
    else if IsIndex(entries[|entries| - 1].key, i) then |entries| - 1
    else Find(entries[..|entries| - 1], i)
  }

  /** A length that `pack` and `unpack` handle as int32. */
  predicate SizesOk(v: LuaValue)
    decreases v
  {
    match v
    case Str(s) => |s| < 0x8000_0000
    case Real(bits) => |bits| == 8
    case Pointer(bits) => |bits| == 8
    case Table(rawlen, entries) =>
      rawlen < 0x8000_0000 && forall k :: 0 <= k < |entries| ==> SizesOk(entries[k].key) && SizesOk(entries[k].val)
    case _ => true
  }

  /** `pack_one` for a value inside `depth` tables. */
  function Pack(v: LuaValue, depth: nat): Packed
    requires SizesOk(v)
    decreases v, 2
  {
    if depth > MAX_DEPTH then Refused
    else
      match v
      case Nil => Bytes([TYPE_NIL])
      case Boolean(b) => Bytes([Combine(TYPE_BOOLEAN, if b then 1 else 0)])
      case Integer(i) => Bytes(IntegerBytes(i))
      case Real(bits) => Bytes([Combine(TYPE_NUMBER, NUMBER_REAL)] + bits)
      case Str(s) => Bytes(StringBytes(s))
      case Pointer(bits) => Bytes([TYPE_USERDATA] + bits)
      case Table(rawlen, entries) =>
        Then(Bytes(ArrayHeader(rawlen)), Then(PackArray(v, 1, depth + 1), PackHash(v, 0, depth + 1)))
      case Unsupported => Refused
  }

  /** The array part from index `i` on. */
  function PackArray(t: LuaValue, i: nat, depth: nat): Packed
    requires SizesOk(t) && t.Table? && 1 <= i <= t.rawlen + 1
    decreases t, 1, t.rawlen + 1 - i
  {
    if i == t.rawlen + 1 then Bytes([])
    else
      var j := Find(t.entries, i);
      var one := if j >= 0 then Pack(t.entries[j].val, depth)
                 else if depth > MAX_DEPTH then Refused else Bytes([TYPE_NIL]);
      Then(one, PackArray(t, i + 1, depth))
  }

  /** Whether the hash part leaves an entry out because the array part has written it. */
  predicate InArray(t: LuaValue, key: LuaValue)
    requires t.Table?
  {
    key.Integer? && 0 < key.i <= t.rawlen
  }

  /** The hash part from the `k`-th entry on, with the nil that ends it. */
  function PackHash(t: LuaValue, k: nat, depth: nat): Packed
    requires SizesOk(t) && t.Table? && k <= |t.entries|
    decreases t, 1, |t.entries| - k
  {
    if k == |t.entries| then Bytes([TYPE_NIL])
    else if InArray(t, t.entries[k].key) then PackHash(t, k + 1, depth)
    else Then(Pack(t.entries[k].key, depth), Then(Pack(t.entries[k].val, depth), PackHash(t, k + 1, depth)))
  }

  // ----- reading -----

  datatype Unpacked = Done(v: Value, rest: seq<Byte>) | Invalid

  datatype UnpackedInt = Int(i: Int64, rest: seq<Byte>) | NoInt

  datatype UnpackedTable = Filled(t: Content, rest: seq<Byte>) | Broken

  function GetInteger(cookie: nat, b: seq<Byte>): (r: UnpackedInt)
    ensures r.Int? ==> |r.rest| <= |b|
  {
    Pow256Values();
    if cookie == NUMBER_ZERO then Int(0, b)
    else if cookie == NUMBER_BYTE && |b| >= 1 then Int(Unsigned(b[..1]), b[1..])
    else if cookie == NUMBER_WORD && |b| >= 2 then Int(Unsigned(b[..2]), b[2..])
    else if cookie == NUMBER_DWORD && |b| >= 4 then Int(Signed(b[..4]), b[4..])
    else if cookie == NUMBER_QWORD && |b| >= 8 then Int(Signed(b[..8]), b[8..])
    else NoInt
  }

  /** `(int)` of an int64 */
  function ToInt32(i: Int64): int {
    (i + 0x8000_0000) % 0x1_0000_0000 - 0x8000_0000
  }

  function GetBuffer(len: nat, b: seq<Byte>): (r: Unpacked)
    ensures r.Done? ==> |r.rest| <= |b| && r.v.VStr?
  {
    if |b| < len then Invalid else Done(VStr(b[..len]), b[len..])
  }

  function LongString(cookie: nat, b: seq<Byte>): (r: Unpacked)
    ensures r.Done? ==> |r.rest| <= |b| && r.v.VStr?
  {
    if cookie == 2 then
      if |b| >= 2 then GetBuffer(Unsigned(b[..2]), b[2..]) else Invalid
    else if cookie == 4 then
      // A length of 2^31 or more is not modelled; see README.
      if |b| >= 4 && Unsigned(b[..4]) < 0x8000_0000 then GetBuffer(Unsigned(b[..4]), b[4..]) else Invalid
    else Invalid
  }

  /** The length of the array part: the cookie itself, or an integer that follows it. */
  function ArrayLength(cookie: nat, b: seq<Byte>): (r: Option<(int, seq<Byte>)>)
    requires cookie < MAX_COOKIE
    ensures r.Some? ==> |r.value.1| <= |b| && r.value.0 < 0x8000_0000
  {
    if cookie == MAX_COOKIE - 1 then
      if b == [] || b[0] % 8 != TYPE_NUMBER || b[0] / 8 == NUMBER_REAL then None
      else
        match GetInteger(b[0] / 8, b[1..])
        case Int(i, rest) => Some((ToInt32(i), rest))
        case NoInt => None
    else Some((cookie, b))
  }

  /** `unpack_one` */
  function Unpack(b: seq<Byte>): (r: Unpacked)
    ensures r.Done? ==> |r.rest| < |b|
    decreases |b|, 0
  {
    if b == [] then Invalid else PushValue(b[0] % 8, b[0] / 8, b[1..])
  }

  function PushValue(tag: nat, cookie: nat, b: seq<Byte>): (r: Unpacked)
    requires cookie < MAX_COOKIE
    ensures r.Done? ==> |r.rest| <= |b|
    decreases |b|, 3
  {
    if tag == TYPE_NIL then Done(VNil, b)
    else if tag == TYPE_BOOLEAN then Done(VBoolean(cookie != 0), b)
    else if tag == TYPE_NUMBER then
      if cookie == NUMBER_REAL then (if |b| >= 8 then Done(VReal(b[..8]), b[8..]) else Invalid)
      else
        match GetInteger(cookie, b)
        case Int(i, rest) => Done(VInteger(i), rest)
        case NoInt => Invalid
    else if tag == TYPE_USERDATA then (if |b| >= 8 then Done(VPointer(b[..8]), b[8..]) else Invalid)
    else if tag == TYPE_SHORT_STRING then GetBuffer(cookie, b)
    else if tag == TYPE_LONG_STRING then LongString(cookie, b)
    else if tag == TYPE_TABLE then UnpackTable(cookie, b)
    else Invalid
  }

  function UnpackTable(cookie: nat, b: seq<Byte>): (r: Unpacked)
    requires cookie < MAX_COOKIE
    ensures r.Done? ==> |r.rest| <= |b|
    decreases |b|, 2
  {
    match ArrayLength(cookie, b)
    case None => Invalid
    case Some((n, b1)) =>
      match UnpackArray(EMPTY, 1, n, b1)
      case Broken => Invalid
      case Filled(t, b2) =>
        match UnpackHash(t, b2)
        case Broken => Invalid
        case Filled(t', rest) => Done(VTable(t'), rest)
  }

  /** The loop over the array part: indices `i` to `n` are still to be read into `t`. */
  function UnpackArray(t: Content, i: nat, n: int, b: seq<Byte>): (r: UnpackedTable)
    requires n < 0x8000_0000
    ensures r.Filled? ==> |r.rest| <= |b|
    decreases |b|, 1
  {
    if i > n then Filled(t, b)
    else
      match Unpack(b)
      case Invalid => Broken
      case Done(v, rest) => UnpackArray(RawSet(t, VInteger(i), v), i + 1, n, rest)
  }

  /** The loop over the hash part. */
  function UnpackHash(t: Content, b: seq<Byte>): (r: UnpackedTable)
    ensures r.Filled? ==> |r.rest| <= |b|
    decreases |b|, 1
  {
    match Unpack(b)
    case Invalid => Broken
    case Done(k, b1) =>
      if k.VNil? then Filled(t, b1)
      else
        match Unpack(b1)
        case Invalid => Broken
        case Done(v, b2) => UnpackHash(RawSet(t, k, v), b2)
  }
}
