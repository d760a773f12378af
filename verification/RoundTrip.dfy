/** Reading undoes writing, whatever array lengths and iteration orders the runtime chooses. */
module RoundTrip {
  import opened Options
  import opened Buffers
  import opened Codec

  /** What the runtime guarantees about tables: no nil keys or values, and no key twice. Keys that are tables are
      distinct objects even if they look alike. */
  predicate WellFormed(v: LuaValue)
    decreases v
  {
    v.Table? ==>
      && (forall k :: 0 <= k < |v.entries| ==>
            && WellFormed(v.entries[k].key) && WellFormed(v.entries[k].val)
            && !v.entries[k].key.Nil? && !v.entries[k].val.Nil?)
      && forall j, k :: 0 <= j < k < |v.entries| && !v.entries[j].key.Table? ==> v.entries[j].key != v.entries[k].key
  }

  /** Every value that packing visits is of a supported type and inside at most MAX_DEPTH tables, `depth` of them
      already being around `v`. */
  predicate Packable(v: LuaValue, depth: nat)
    decreases v
  {
    && depth <= MAX_DEPTH
    && !v.Unsupported?
    && (v.Table? ==>
          && (v.rawlen > 0 ==> depth + 1 <= MAX_DEPTH)
          && forall k :: 0 <= k < |v.entries| ==>
               Packable(v.entries[k].key, depth + 1) && Packable(v.entries[k].val, depth + 1))
  }

  // ----- leaves -----

  /** A tag, a body and what follows them come apart again. */
  lemma Split(tag: Byte, body: seq<Byte>, rest: seq<Byte>)
    ensures var b := [tag] + body + rest;
      b[0] == tag && b[1..] == body + rest && b[1..][..|body|] == body && b[1..][|body|..] == rest
  {
    var b := [tag] + body + rest;
    assert b[1..] == body + rest;
  }

  lemma UnpackTagged(tag: nat, cookie: nat, body: seq<Byte>)
    requires tag < 8 && cookie < MAX_COOKIE
    ensures Unpack([Combine(tag, cookie)] + body) == PushValue(tag, cookie, body)
  {
    var b := [Combine(tag, cookie)] + body;
    assert b[0] % 8 == tag && b[0] / 8 == cookie && b[1..] == body;
  }

  function Width(v: Int64): nat {
    if v == 0 then 0
    else if !(-0x8000_0000 <= v < 0x8000_0000) then 8
    else if v < 0 then 4 else if v < 0x100 then 1 else if v < 0x1_0000 then 2 else 4
  }

  lemma WidthFits(v: Int64)
    ensures Width(v) == 1 || Width(v) == 2 ==> Unsigned(ToBytes(v, Width(v))) == v
    ensures Width(v) == 4 || Width(v) == 8 ==> Signed(ToBytes(v, Width(v))) == v
    ensures var cookie := if Width(v) == 8 then NUMBER_QWORD else Width(v);
            IntegerBytes(v) == [Combine(TYPE_NUMBER, cookie)] + ToBytes(v, Width(v))
  {
    Pow256Values();
    var n := Width(v);
    if n == 1 || n == 2 {
      UnsignedToBytes(v, n);
    } else if n > 0 {
      SignedToBytes(v, n);
    }
  }

  lemma IntegerRoundTrip(v: Int64, rest: seq<Byte>)
    ensures IntegerBytes(v) != []
    ensures var b := IntegerBytes(v) + rest;
      && b[0] % 8 == TYPE_NUMBER && b[0] / 8 != NUMBER_REAL
      && GetInteger(b[0] / 8, b[1..]) == Int(v, rest)
  {
    hide ToBytes, Unsigned, Signed, IntegerBytes, Width;
    WidthFits(v);
    WidthValues(v);
    Split(Combine(TYPE_NUMBER, if Width(v) == 8 then NUMBER_QWORD else Width(v)), ToBytes(v, Width(v)), rest);
  }

  lemma WidthValues(v: Int64)
    ensures Width(v) in {0, 1, 2, 4, 8} && (Width(v) == 0 ==> v == 0)
  {}

  lemma BufferRoundTrip(s: seq<Byte>, rest: seq<Byte>)
    ensures GetBuffer(|s|, s + rest) == Done(VStr(s), rest)
  {
    assert (s + rest)[..|s|] == s && (s + rest)[|s|..] == rest;
  }

  lemma LongStringRoundTrip(s: seq<Byte>, n: nat, rest: seq<Byte>)
    requires (n == 2 && |s| < 0x1_0000) || (n == 4 && |s| < 0x8000_0000)
    ensures LongString(n, ToBytes(|s|, n) + (s + rest)) == Done(VStr(s), rest)
  {
    hide ToBytes, Unsigned, GetBuffer;
    Pow256Values();
    UnsignedToBytes(|s|, n);
    BufferRoundTrip(s, rest);
    var body := ToBytes(|s|, n) + (s + rest);
    assert body[..n] == ToBytes(|s|, n) && body[n..] == s + rest;
  }

  lemma Regroup(a: seq<Byte>, b: seq<Byte>, c: seq<Byte>, d: seq<Byte>)
    ensures a + b + c + d == a + (b + (c + d))
    ensures b == [] ==> a + c + d == a + (c + d)
    ensures a + (b + c) + d == a + (b + (c + d))
  {}

  lemma StringRoundTrip(s: seq<Byte>, rest: seq<Byte>)
    requires |s| < 0x8000_0000
    ensures Unpack(StringBytes(s) + rest) == Done(VStr(s), rest)
  {
    hide ToBytes, Unpack, GetBuffer, LongString, ToBytes, Unsigned;
    if |s| < MAX_COOKIE {
      BufferRoundTrip(s, rest);
      UnpackTagged(TYPE_SHORT_STRING, |s|, s + rest);
      Regroup([Combine(TYPE_SHORT_STRING, |s|)], [], s, rest);
    } else {
      var n := if |s| < 0x1_0000 then 2 else 4;
      LongStringRoundTrip(s, n, rest);
      UnpackTagged(TYPE_LONG_STRING, n, ToBytes(|s|, n) + (s + rest));
      Regroup([Combine(TYPE_LONG_STRING, n)], ToBytes(|s|, n), s, rest);
    }
  }

  lemma HeaderRoundTrip(n: nat, rest: seq<Byte>)
    requires n < 0x8000_0000
    ensures var b := ArrayHeader(n) + rest;
      && b[0] % 8 == TYPE_TABLE && b[0] / 8 < MAX_COOKIE
      && ArrayLength(b[0] / 8, b[1..]) == Some((n, rest))
  {
    hide IntegerBytes, GetInteger;
    var b := ArrayHeader(n) + rest;
    if n >= MAX_COOKIE - 1 {
      assert b[1..] == IntegerBytes(n) + rest;
      IntegerRoundTrip(n, rest);
      assert ToInt32(n) == n;
    } else {
      assert b[1..] == rest;
    }
  }

  // ----- tables -----

  /** What reading stores for the array part from index `i` on. */
  function FillArray(c: Content, t: LuaValue, i: nat): Content
    requires t.Table? && t.rawlen < 0x8000_0000 && 1 <= i <= t.rawlen + 1
    decreases t.rawlen + 1 - i
  {
    if i == t.rawlen + 1 then c
    else
      var j := Find(t.entries, i);
      FillArray(RawSet(c, VInteger(i), if j >= 0 then Abs(t.entries[j].val) else VNil), t, i + 1)
  }

  /** What reading stores for the hash part from the `k`-th entry on. */
  function FillHash(c: Content, t: LuaValue, k: nat): Content
    requires t.Table? && k <= |t.entries|
    decreases |t.entries| - k
  {
    if k == |t.entries| then c
    else if InArray(t, t.entries[k].key) then FillHash(c, t, k + 1)
    else FillHash(RawSet(c, Abs(t.entries[k].key), Abs(t.entries[k].val)), t, k + 1)
  }

  lemma TableParts(n: int, b: seq<Byte>, b1: seq<Byte>, t: Content, b2: seq<Byte>, t': Content, rest: seq<Byte>)
    requires b != [] && b[0] % 8 == TYPE_TABLE && b[0] / 8 < MAX_COOKIE && n < 0x8000_0000
    requires ArrayLength(b[0] / 8, b[1..]) == Some((n, b1))
    requires UnpackArray(EMPTY, 1, n, b1) == Filled(t, b2) && UnpackHash(t, b2) == Filled(t', rest)
    ensures Unpack(b) == Done(VTable(t'), rest)
  {
    hide ArrayLength, UnpackArray, UnpackHash;
    assert Unpack(b) == PushValue(TYPE_TABLE, b[0] / 8, b[1..]);
    assert PushValue(TYPE_TABLE, b[0] / 8, b[1..]) == UnpackTable(b[0] / 8, b[1..]);
  }

  lemma LeafRoundTrip(v: LuaValue, rest: seq<Byte>)
    requires SizesOk(v) && !v.Table? && !v.Unsupported?
    ensures Pack(v, 0).Bytes? && Unpack(Pack(v, 0).b + rest) == Done(Abs(v), rest)
  {
    hide Unpack, IntegerBytes, GetInteger, StringBytes;
    var b := Pack(v, 0).b + rest;
    match v
    case Nil =>
      assert b == [Combine(TYPE_NIL, 0)] + rest;
      UnpackTagged(TYPE_NIL, 0, rest);
    case Boolean(x) =>
      UnpackTagged(TYPE_BOOLEAN, if x then 1 else 0, rest);
    case Integer(i) =>
      IntegerRoundTrip(i, rest);
      assert b == [Combine(TYPE_NUMBER, b[0] / 8)] + b[1..];
      UnpackTagged(TYPE_NUMBER, b[0] / 8, b[1..]);
    case Real(bits) =>
      assert b == [Combine(TYPE_NUMBER, NUMBER_REAL)] + (bits + rest);
      UnpackTagged(TYPE_NUMBER, NUMBER_REAL, bits + rest);
      assert (bits + rest)[..8] == bits && (bits + rest)[8..] == rest;
    case Str(s) =>
      StringRoundTrip(s, rest);
    case Pointer(bits) =>
      assert b == [Combine(TYPE_USERDATA, 0)] + (bits + rest);
      UnpackTagged(TYPE_USERDATA, 0, bits + rest);
      assert (bits + rest)[..8] == bits && (bits + rest)[8..] == rest;
  }

  lemma PackedParts(v: LuaValue, depth: nat, rest: seq<Byte>)
    requires SizesOk(v) && Pack(v, depth).Bytes?
    ensures v.Table? ==>
      var slots, hash := PackArray(v, 1, depth + 1), PackHash(v, 0, depth + 1);
      && slots.Bytes? && hash.Bytes?
      && Pack(v, depth).b + rest == ArrayHeader(v.rawlen) + (slots.b + (hash.b + rest))
    ensures !v.Table? ==> !v.Unsupported? && Pack(v, depth) == Pack(v, 0)
  {
    hide PackArray, PackHash, ArrayHeader;
    if v.Table? {
      var header, slots, hash := ArrayHeader(v.rawlen), PackArray(v, 1, depth + 1), PackHash(v, 0, depth + 1);
      assert Pack(v, depth) == Then(Bytes(header), Then(slots, hash));
      assert header + (slots.b + hash.b) + rest == header + (slots.b + (hash.b + rest));
    }
  }

  lemma {:induction false} ValueRoundTrip(v: LuaValue, depth: nat, rest: seq<Byte>)
    requires SizesOk(v) && WellFormed(v) && Pack(v, depth).Bytes?
    ensures Unpack(Pack(v, depth).b + rest) == Done(Abs(v), rest)
    decreases v, 2
  {
    PackedParts(v, depth, rest);
    hide Unpack, UnpackArray, UnpackHash, ArrayLength, Pack, PackArray, PackHash, ArrayHeader, WellFormed;
    if v.Table? {
      var slots, hash := PackArray(v, 1, depth + 1).b, PackHash(v, 0, depth + 1).b;
      var tail := slots + (hash + rest);
      var b := ArrayHeader(v.rawlen) + tail;
      HeaderRoundTrip(v.rawlen, tail);
      ArrayRoundTrip(v, 1, depth + 1, EMPTY, hash + rest);
      HashRoundTrip(v, 0, depth + 1, FillArray(EMPTY, v, 1), rest);
      TableParts(v.rawlen, b, tail, FillArray(EMPTY, v, 1), hash + rest, FillHash(FillArray(EMPTY, v, 1), v, 0), rest);
      TableAssembled(v);
    } else {
      LeafRoundTrip(v, rest);
    }
  }

  lemma {:induction false} ArrayRoundTrip(t: LuaValue, i: nat, depth: nat, c: Content, rest: seq<Byte>)
    requires SizesOk(t) && WellFormed(t) && t.Table? && 1 <= i <= t.rawlen + 1 && PackArray(t, i, depth).Bytes?
    ensures UnpackArray(c, i, t.rawlen, PackArray(t, i, depth).b + rest) == Filled(FillArray(c, t, i), rest)
    decreases t, 1, t.rawlen + 1 - i
  {
    hide Unpack;
    if i == t.rawlen + 1 {
      assert PackArray(t, i, depth).b + rest == rest;
    } else {
      var j := Find(t.entries, i);
      var more := PackArray(t, i + 1, depth).b;
      var one := if j >= 0 then Pack(t.entries[j].val, depth).b else [TYPE_NIL];
      assert PackArray(t, i, depth).b + rest == one + (more + rest);
      if j >= 0 {
        ValueRoundTrip(t.entries[j].val, depth, more + rest);
      } else {
        LeafRoundTrip(Nil, more + rest);
      }
      var v := if j >= 0 then Abs(t.entries[j].val) else VNil;
      ArrayRoundTrip(t, i + 1, depth, RawSet(c, VInteger(i), v), rest);
    }
  }

  lemma EntryOk(t: LuaValue, k: nat)
    requires t.Table? && WellFormed(t) && k < |t.entries|
    ensures WellFormed(t.entries[k].key) && WellFormed(t.entries[k].val)
  {}

  lemma HashStep(c: Content, b: seq<Byte>, key: Value, b1: seq<Byte>, val: Value, b2: seq<Byte>)
    requires Unpack(b) == Done(key, b1) && Unpack(b1) == Done(val, b2) && !key.VNil?
    ensures UnpackHash(c, b) == UnpackHash(RawSet(c, key, val), b2)
  {}

  lemma LastHash(c: Content, rest: seq<Byte>)
    ensures UnpackHash(c, [TYPE_NIL] + rest) == Filled(c, rest)
  {
    LeafRoundTrip(Nil, rest);
    hide Unpack;
  }

  lemma PackHashStep(t: LuaValue, k: nat, depth: nat)
    requires SizesOk(t) && WellFormed(t) && t.Table? && k <= |t.entries| && PackHash(t, k, depth).Bytes?
    ensures k == |t.entries| ==> PackHash(t, k, depth) == Bytes([TYPE_NIL])
    ensures k < |t.entries| && InArray(t, t.entries[k].key) ==> PackHash(t, k, depth) == PackHash(t, k + 1, depth)
    ensures k < |t.entries| && !InArray(t, t.entries[k].key) ==>
      var key, val, more := Pack(t.entries[k].key, depth), Pack(t.entries[k].val, depth), PackHash(t, k + 1, depth);
      && !Abs(t.entries[k].key).VNil? && key.Bytes? && val.Bytes? && more.Bytes?
      && PackHash(t, k, depth) == Bytes(key.b + (val.b + more.b))
  {
    hide Pack, InArray;
  }

  lemma {:induction false} HashRoundTrip(t: LuaValue, k: nat, depth: nat, c: Content, rest: seq<Byte>)
    requires SizesOk(t) && WellFormed(t) && t.Table? && k <= |t.entries| && PackHash(t, k, depth).Bytes?
    ensures UnpackHash(c, PackHash(t, k, depth).b + rest) == Filled(FillHash(c, t, k), rest)
    decreases t, 1, |t.entries| - k
  {
    PackHashStep(t, k, depth);
    hide Unpack, Abs, RawSet, InArray, WellFormed, PackHash, Pack;
    var b := PackHash(t, k, depth).b + rest;
    if k == |t.entries| {
      LastHash(c, rest);
    } else if InArray(t, t.entries[k].key) {
      HashRoundTrip(t, k + 1, depth, c, rest);
    } else {
      var e := t.entries[k];
      EntryOk(t, k);
      var key, val, more := Pack(e.key, depth).b, Pack(e.val, depth).b, PackHash(t, k + 1, depth).b;
      Regroup(key, val, more, rest);
      ValueRoundTrip(e.key, depth, val + (more + rest));
      ValueRoundTrip(e.val, depth, more + rest);
      HashRoundTrip(t, k + 1, depth, RawSet(c, Abs(e.key), Abs(e.val)), rest);
      HashStep(c, b, Abs(e.key), val + (more + rest), Abs(e.val), more + rest);
    }
  }

  // ----- the table that reading assembles is the one that was written -----

  lemma ScalarsApart(a: LuaValue, b: LuaValue)
    requires Abs(a) == Abs(b) && !a.Table?
    ensures a == b
  {}

  /** Of the entries whose key is not a table, those chosen and no others are stored in `c`. */
  ghost predicate Stores(c: Content, t: LuaValue, chosen: nat -> bool)
    requires t.Table?
  {
    && (forall j: nat :: j < |t.entries| && !t.entries[j].key.Table? && chosen(j) ==>
          Abs(t.entries[j].key) in c.fields && c.fields[Abs(t.entries[j].key)] == Abs(t.entries[j].val))
    && (forall x :: x in c.fields ==>
          exists j: nat :: j < |t.entries| && !t.entries[j].key.Table? && chosen(j) && Abs(t.entries[j].key) == x)
  }

  lemma SameFields(c: Content, d: Content, t: LuaValue, p: nat -> bool, q: nat -> bool)
    requires t.Table? && Stores(c, t, p) && Stores(d, t, q)
    requires forall j: nat :: j < |t.entries| ==> p(j) == q(j)
    ensures c.fields == d.fields
  {}

  /** Storing one more entry. */
  lemma StoreOne(c: Content, t: LuaValue, p: nat -> bool, q: nat -> bool, k: nat)
    requires t.Table? && WellFormed(t) && Stores(c, t, p) && k < |t.entries|
    requires forall j: nat :: j < |t.entries| ==> q(j) == (p(j) || j == k)
    ensures Stores(RawSet(c, Abs(t.entries[k].key), Abs(t.entries[k].val)), t, q)
  {
    var e := t.entries[k];
    forall j: nat | j < |t.entries| && !t.entries[j].key.Table? && Abs(t.entries[j].key) == Abs(e.key)
      ensures j == k
    {
      ScalarsApart(t.entries[j].key, e.key);
    }
    assert Abs(e.key).VTable? <==> e.key.Table?;
    assert !Abs(e.val).VNil?;
    hide Abs, WellFormed;
  }

  function Below(n: nat): nat -> bool {
    (j: nat) => j < n
  }

  lemma NothingStored(t: LuaValue, p: nat -> bool)
    requires t.Table? && forall j: nat :: j < |t.entries| ==> !p(j)
    ensures Stores(EMPTY, t, p)
  {}

  lemma {:induction false} AbsStores(t: LuaValue, n: nat)
    requires t.Table? && WellFormed(t) && n <= |t.entries|
    ensures Stores(AbsEntries(t, n), t, Below(n))
  {
    hide Stores, RawSet, WellFormed;
    if n == 0 {
      NothingStored(t, Below(0));
    } else {
      AbsStores(t, n - 1);
      StoreOne(AbsEntries(t, n - 1), t, Below(n - 1), Below(n), n - 1);
    }
  }

  function ArrayBelow(t: LuaValue, i: int): nat -> bool
    requires t.Table?
  {
    (j: nat) => j < |t.entries| && InArray(t, t.entries[j].key) && t.entries[j].key.i < i
  }

  /** The effect of reading slot `i`. */
  lemma SlotStores(c: Content, t: LuaValue, i: nat)
    requires t.Table? && WellFormed(t) && t.rawlen < 0x8000_0000 && 1 <= i <= t.rawlen
    requires Stores(c, t, ArrayBelow(t, i))
    ensures var j := Find(t.entries, i);
      var c' := RawSet(c, VInteger(i), if j >= 0 then Abs(t.entries[j].val) else VNil);
      Stores(c', t, ArrayBelow(t, i + 1)) && c'.byTable == c.byTable
  {
    var j := Find(t.entries, i);
    var p, q := ArrayBelow(t, i), ArrayBelow(t, i + 1);
    if j >= 0 {
      OnlyIndex(t, i, j);
      StoreOne(c, t, p, q, j);
    } else {
      assert VInteger(i) !in c.fields;
      assert c.fields - {VInteger(i)} == c.fields;
      SameChoice(c, t, p, q);
    }
  }

  lemma {:induction false} ArrayStores(c: Content, t: LuaValue, i: nat)
    requires t.Table? && WellFormed(t) && t.rawlen < 0x8000_0000 && 1 <= i <= t.rawlen + 1
    requires Stores(c, t, ArrayBelow(t, i))
    ensures FillArray(c, t, i).byTable == c.byTable
    ensures Stores(FillArray(c, t, i), t, ArrayBelow(t, t.rawlen + 1))
    decreases t.rawlen + 1 - i
  {
    hide Stores, WellFormed, RawSet, ArrayBelow;
    if i <= t.rawlen {
      var j := Find(t.entries, i);
      SlotStores(c, t, i);
      ArrayStores(RawSet(c, VInteger(i), if j >= 0 then Abs(t.entries[j].val) else VNil), t, i + 1);
    }
  }

  lemma OnlyIndex(t: LuaValue, i: int, j: nat)
    requires t.Table? && WellFormed(t) && j < |t.entries| && IsIndex(t.entries[j].key, i)
    ensures forall k: nat :: k < |t.entries| && IsIndex(t.entries[k].key, i) ==> k == j
  {}

  function ArrayOrBelow(t: LuaValue, k: nat): nat -> bool
    requires t.Table?
  {
    (j: nat) => j < |t.entries| && (InArray(t, t.entries[j].key) || j < k)
  }

  lemma {:induction false} HashStores(c: Content, t: LuaValue, k: nat)
    requires t.Table? && WellFormed(t) && k <= |t.entries|
    requires Stores(c, t, ArrayOrBelow(t, k)) && c.byTable == AbsEntries(t, k).byTable
    ensures Stores(FillHash(c, t, k), t, ArrayOrBelow(t, |t.entries|))
    ensures FillHash(c, t, k).byTable == AbsEntries(t, |t.entries|).byTable
    decreases |t.entries| - k
  {
    hide Stores, WellFormed;
    if k < |t.entries| {
      if InArray(t, t.entries[k].key) {
        SameChoice(c, t, ArrayOrBelow(t, k), ArrayOrBelow(t, k + 1));
        HashStores(c, t, k + 1);
      } else {
        StoreOne(c, t, ArrayOrBelow(t, k), ArrayOrBelow(t, k + 1), k);
        HashStores(RawSet(c, Abs(t.entries[k].key), Abs(t.entries[k].val)), t, k + 1);
      }
    }
  }

  lemma SameChoice(c: Content, t: LuaValue, p: nat -> bool, q: nat -> bool)
    requires t.Table? && Stores(c, t, p)
    requires forall j: nat :: j < |t.entries| ==> p(j) == q(j)
    ensures Stores(c, t, q)
  {}

  /** Array part and hash part together store each entry exactly once, whatever the reported length. */
  lemma TableAssembled(t: LuaValue)
    requires t.Table? && WellFormed(t) && t.rawlen < 0x8000_0000
    ensures FillHash(FillArray(EMPTY, t, 1), t, 0) == AbsEntries(t, |t.entries|)
  {
    var n := |t.entries|;
    NothingStored(t, ArrayBelow(t, 1));
    ArrayStores(EMPTY, t, 1);
    var c := FillArray(EMPTY, t, 1);
    SameChoice(c, t, ArrayBelow(t, t.rawlen + 1), ArrayOrBelow(t, 0));
    HashStores(c, t, 0);
    AbsStores(t, n);
    SameFields(FillHash(c, t, 0), AbsEntries(t, n), t, ArrayOrBelow(t, n), Below(n));
  }

  // ----- when packing succeeds -----

  /** Packing succeeds exactly for the packable values. */
  lemma {:induction false} PackSucceeds(v: LuaValue, depth: nat)
    requires SizesOk(v) && WellFormed(v)
    ensures Pack(v, depth).Bytes? <==> Packable(v, depth)
    decreases v, 2
  {
    hide WellFormed, PackArray, PackHash;
    if v.Table? && depth <= MAX_DEPTH {
      PackArraySucceeds(v, 1, depth + 1);
      PackHashSucceeds(v, 0, depth + 1);
      PartsPackable(v, depth);
    }
  }

  /** Every entry is in the array part or in the hash part. */
  lemma PartsPackable(t: LuaValue, depth: nat)
    requires t.Table? && WellFormed(t) && depth <= MAX_DEPTH
    ensures Packable(t, depth) <==>
      SlotsPackable(t, 1, depth + 1) && HashPackable(t, 0, depth + 1)
  {
    hide WellFormed;
    forall k: nat | k < |t.entries| && InArray(t, t.entries[k].key)
      ensures Find(t.entries, t.entries[k].key.i) == k
    {
      OnlyIndex(t, t.entries[k].key.i, k);
    }
    if SlotsPackable(t, 1, depth + 1) && HashPackable(t, 0, depth + 1) {
      forall k | 0 <= k < |t.entries|
        ensures Packable(t.entries[k].key, depth + 1) && Packable(t.entries[k].val, depth + 1)
      {
        if InArray(t, t.entries[k].key) {
          var x := t.entries[k].key.i;
          assert Find(t.entries, x) == k;
        }
      }
      if t.rawlen > 0 {
        assert 1 <= 1 <= t.rawlen;
        assert Find(t.entries, 1) >= -1;
      }
    }
  }

  /** All entries of the hash part from the `k`-th on are packable. */
  ghost predicate HashPackable(t: LuaValue, k: nat, depth: nat)
    requires t.Table?
  {
    forall j :: k <= j < |t.entries| && !InArray(t, t.entries[j].key) ==>
      Packable(t.entries[j].key, depth) && Packable(t.entries[j].val, depth)
  }

  /** All array slots from `i` on are packable. */
  ghost predicate SlotsPackable(t: LuaValue, i: nat, depth: nat)
    requires t.Table?
  {
    forall x :: i <= x <= t.rawlen ==>
      depth <= MAX_DEPTH && (Find(t.entries, x) >= 0 ==> Packable(t.entries[Find(t.entries, x)].val, depth))
  }

  lemma {:induction false} PackArraySucceeds(t: LuaValue, i: nat, depth: nat)
    requires SizesOk(t) && WellFormed(t) && t.Table? && 1 <= i <= t.rawlen + 1
    ensures PackArray(t, i, depth).Bytes? <==> SlotsPackable(t, i, depth)
    decreases t, 1, t.rawlen + 1 - i
  {
    if i <= t.rawlen {
      var j := Find(t.entries, i);
      if j >= 0 {
        PackSucceeds(t.entries[j].val, depth);
      }
      PackArraySucceeds(t, i + 1, depth);
      assert SlotsPackable(t, i, depth) <==>
        (depth <= MAX_DEPTH && (j >= 0 ==> Packable(t.entries[j].val, depth)) && SlotsPackable(t, i + 1, depth));
    }
  }

  lemma {:induction false} PackHashSucceeds(t: LuaValue, k: nat, depth: nat)
    requires SizesOk(t) && WellFormed(t) && t.Table? && k <= |t.entries|
    ensures PackHash(t, k, depth).Bytes? <==> HashPackable(t, k, depth)
    decreases t, 1, |t.entries| - k
  {
    if k < |t.entries| {
      PackHashSucceeds(t, k + 1, depth);
      PackSucceeds(t.entries[k].key, depth);
      PackSucceeds(t.entries[k].val, depth);
    }
  }

  /** `n` tables around a boolean. */
  function Nested(n: nat): LuaValue {
    if n == 0 then Boolean(true) else Table(0, [Entry(Integer(1), Nested(n - 1))])
  }

  lemma {:induction false} NestedPackable(n: nat, depth: nat)
    ensures SizesOk(Nested(n)) && WellFormed(Nested(n))
    ensures Packable(Nested(n), depth) <==> depth + n <= 32
  {
    if n > 0 {
      NestedPackable(n - 1, depth + 1);
      assert Nested(n).entries[0] == Entry(Integer(1), Nested(n - 1));
    }
  }

  /** 32 tables inside one another are packed, 33 are not. */
  lemma DepthLimit(n: nat)
    ensures SizesOk(Nested(n)) && (Pack(Nested(n), 0).Bytes? <==> n <= 32)
  {
    NestedPackable(n, 0);
    PackSucceeds(Nested(n), 0);
  }

  // ----- lists of values -----

  /** `pack` of several values. */
  function PackAll(vs: seq<LuaValue>): Packed
    requires forall k :: 0 <= k < |vs| ==> SizesOk(vs[k])
  {
    if vs == [] then Bytes([]) else Then(Pack(vs[0], 0), PackAll(vs[1..]))
  }

  function AbsAll(vs: seq<LuaValue>): seq<Value> {
    if vs == [] then [] else [Abs(vs[0])] + AbsAll(vs[1..])
  }

  /** `unpack`: values up to the end of the bytes. */
  function UnpackAll(b: seq<Byte>): Option<seq<Value>>
    decreases |b|
  {
    if b == [] then Some([])
    else
      match Unpack(b)
      case Invalid => None
      case Done(v, rest) =>
        match UnpackAll(rest)
        case None => None
        case Some(vs) => Some([v] + vs)
  }

  lemma UnpackNext(b: seq<Byte>, v: Value, rest: seq<Byte>)
    requires Unpack(b) == Done(v, rest)
    ensures UnpackAll(b) == match UnpackAll(rest) case None => None case Some(vs) => Some([v] + vs)
  {}

  /** The encoding delimits itself: what follows the packed values is read as if it stood alone. */
  lemma {:induction false} ListRoundTrip(vs: seq<LuaValue>, tail: seq<Byte>)
    requires forall k :: 0 <= k < |vs| ==> SizesOk(vs[k]) && WellFormed(vs[k])
    requires PackAll(vs).Bytes?
    ensures UnpackAll(PackAll(vs).b + tail)
         == match UnpackAll(tail) case None => None case Some(more) => Some(AbsAll(vs) + more)
  {
    hide Unpack, WellFormed, Abs, SizesOk;
    if vs == [] {
      assert PackAll(vs).b + tail == tail;
      if UnpackAll(tail).Some? {
        assert [] + UnpackAll(tail).value == UnpackAll(tail).value;
      }
    } else {
      var first, others := Pack(vs[0], 0).b, PackAll(vs[1..]).b;
      assert PackAll(vs).b + tail == first + (others + tail);
      ValueRoundTrip(vs[0], 0, others + tail);
      ListRoundTrip(vs[1..], tail);
      UnpackNext(first + (others + tail), Abs(vs[0]), others + tail);
      if UnpackAll(tail).Some? {
        var more := UnpackAll(tail).value;
        assert [Abs(vs[0])] + (AbsAll(vs[1..]) + more) == AbsAll(vs) + more;
      }
    }
  }

  /** `unpack(pack(v1, ..., vn))` is v1, ..., vn, and packing succeeds exactly if every value is packable. */
  lemma PackUnpack(vs: seq<LuaValue>)
    requires forall k :: 0 <= k < |vs| ==> SizesOk(vs[k]) && WellFormed(vs[k])
    ensures PackAll(vs).Bytes? <==> forall k :: 0 <= k < |vs| ==> Packable(vs[k], 0)
    ensures PackAll(vs).Bytes? ==> UnpackAll(PackAll(vs).b) == Some(AbsAll(vs))
  {
    PackAllSucceeds(vs);
    hide PackAll, Packable, SizesOk, WellFormed;
    if PackAll(vs).Bytes? {
      ListRoundTrip(vs, []);
      assert PackAll(vs).b + [] == PackAll(vs).b;
      assert AbsAll(vs) + [] == AbsAll(vs);
    }
  }

  lemma {:induction false} PackAllSucceeds(vs: seq<LuaValue>)
    requires forall k :: 0 <= k < |vs| ==> SizesOk(vs[k]) && WellFormed(vs[k])
    ensures PackAll(vs).Bytes? <==> forall k :: 0 <= k < |vs| ==> Packable(vs[k], 0)
  {
    if vs != [] {
      PackSucceeds(vs[0], 0);
      PackAllSucceeds(vs[1..]);
    }
  }

  /** No packed value is a proper prefix of another one, and equal bytes mean equal values. */
  lemma PrefixFree(v: LuaValue, w: LuaValue, more: seq<Byte>)
    requires SizesOk(v) && WellFormed(v) && SizesOk(w) && WellFormed(w)
    requires Pack(v, 0).Bytes? && Pack(w, 0).Bytes? && Pack(v, 0).b + more == Pack(w, 0).b
    ensures more == [] && Abs(v) == Abs(w)
  {
    ValueRoundTrip(v, 0, more);
    ValueRoundTrip(w, 0, []);
    assert Pack(w, 0).b + [] == Pack(w, 0).b;
  }
}
