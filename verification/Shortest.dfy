/** Of all the forms that reading accepts for a number, a string, an array length or any other leaf, packing writes the
    shortest, and of those equally short the one with the least tag byte; and a table is written with each of its
    entries once. */
module Shortest {
  import opened Options
  import opened Buffers
  import opened Codec
  import opened RoundTrip

  /** `a` comes before `b`: it is shorter, or differs at most in a smaller first byte. */
  predicate NotAfter(a: seq<Byte>, b: seq<Byte>) {
    a != [] && b != [] && (|a| < |b| || (|a| == |b| && a[0] <= b[0] && a[1..] == b[1..]))
  }

  // ----- integers -----

  lemma {:induction false} ToBytesOfUnsigned(b: seq<Byte>)
    ensures ToBytes(Unsigned(b), |b|) == b
  {
    if b != [] {
      ToBytesOfUnsigned(b[1..]);
      assert Unsigned(b) / 256 == Unsigned(b[1..]);
    }
  }

  lemma ToBytesOfSigned(b: seq<Byte>)
    ensures ToBytes(Signed(b), |b|) == b
  {
    hide ToBytes, Pow256, Unsigned;
    ToBytesOfUnsigned(b);
    if Signed(b) != Unsigned(b) {
      ToBytesWraps(Signed(b), |b|);
    }
  }

  /** No other number form of `v` is as short as the one written. */
  lemma IntegerShortest(v: Int64, cookie: nat, b: seq<Byte>)
    requires GetInteger(cookie, b) == Int(v, [])
    ensures cookie < MAX_COOKIE && NotAfter(IntegerBytes(v), [Combine(TYPE_NUMBER, cookie)] + b)
    ensures |IntegerBytes(v)| == 1 + |b| ==> IntegerBytes(v) == [Combine(TYPE_NUMBER, cookie)] + b
  {
    hide ToBytes, Unsigned, Signed;
    Pow256Values();
    assert b != [] ==> b[..|b|] == b;
    ToBytesOfUnsigned(b);
    ToBytesOfSigned(b);
  }

  // ----- array lengths -----

  /** Every header of a table that reads as an array length of `n` is at least as long as the one written. */
  lemma HeaderShortest(n: nat, b: seq<Byte>)
    requires n < 0x8000_0000 && b != [] && b[0] % 8 == TYPE_TABLE
    requires ArrayLength(b[0] / 8, b[1..]) == Some((n as int, []))
    ensures |ArrayHeader(n)| <= |b|
    ensures |ArrayHeader(n)| == |b| ==> ArrayHeader(n) == b
  {
    hide IntegerBytes, GetInteger;
    assert b == [Combine(TYPE_TABLE, b[0] / 8)] + b[1..];
    if b[0] / 8 == MAX_COOKIE - 1 {
      var c := b[1..];
      var i := GetInteger(c[0] / 8, c[1..]).i;
      IntegerShortest(i, c[0] / 8, c[1..]);
      assert c == [Combine(TYPE_NUMBER, c[0] / 8)] + c[1..];
      LongestInteger(n, i);
    }
  }

  lemma LongestInteger(n: nat, i: Int64)
    requires n < 0x8000_0000 && ToInt32(i) == n
    ensures |IntegerBytes(n)| <= |IntegerBytes(i)|
    ensures |IntegerBytes(n)| == |IntegerBytes(i)| ==> i == n
  {
    hide ToBytes;
  }

  // ----- strings -----

  lemma Tagged(b: seq<Byte>)
    requires b != []
    ensures b == [Combine(b[0] % 8, b[0] / 8)] + b[1..]
  {}

  /** Every encoding of the string `s` is at least as long as the one written. */
  lemma StringShortest(s: seq<Byte>, b: seq<Byte>)
    requires |s| < 0x8000_0000 && Unpack(b) == Done(VStr(s), [])
    ensures |StringBytes(s)| <= |b|
    ensures |StringBytes(s)| == |b| ==> StringBytes(s) == b
  {
    hide PushValue, GetBuffer, LongString, StringBytes, Combine;
    Tagged(b);
    StringTag(b[0] % 8, b[0] / 8, b[1..], s);
    if b[0] % 8 == TYPE_SHORT_STRING {
      BufferParts(b[0] / 8, b[1..], s);
      ShortForm(s);
    } else {
      LongStringParts(b[0] / 8, b[1..], s);
      LongForm(s, b[0] / 8);
    }
  }

  lemma ShortForm(s: seq<Byte>)
    requires |s| < MAX_COOKIE
    ensures StringBytes(s) == [Combine(TYPE_SHORT_STRING, |s|)] + s
  {}

  lemma LongForm(s: seq<Byte>, cookie: nat)
    requires (cookie == 2 && |s| < 0x1_0000) || (cookie == 4 && |s| < 0x8000_0000)
    ensures var b := [Combine(TYPE_LONG_STRING, cookie)] + (ToBytes(|s|, cookie) + s);
            |StringBytes(s)| <= |b| && (|StringBytes(s)| == |b| ==> StringBytes(s) == b)
  {
    hide ToBytes;
  }

  lemma StringTag(tag: nat, cookie: nat, c: seq<Byte>, s: seq<Byte>)
    requires cookie < MAX_COOKIE && PushValue(tag, cookie, c) == Done(VStr(s), [])
    ensures (tag == TYPE_SHORT_STRING && GetBuffer(cookie, c) == Done(VStr(s), []))
         || (tag == TYPE_LONG_STRING && LongString(cookie, c) == Done(VStr(s), []))
  {
  }

  lemma BufferParts(cookie: nat, c: seq<Byte>, s: seq<Byte>)
    requires GetBuffer(cookie, c) == Done(VStr(s), [])
    ensures c == s && |s| == cookie
  {
    assert c == c[..cookie] + c[cookie..];
  }

  lemma LongStringParts(cookie: nat, c: seq<Byte>, s: seq<Byte>)
    requires LongString(cookie, c) == Done(VStr(s), [])
    ensures (cookie == 2 && |s| < 0x1_0000) || cookie == 4
    ensures c == ToBytes(|s|, cookie) + s
  {
    hide ToBytes, Unsigned;
    Pow256Values();
    assert c == c[..cookie] + c[cookie..];
    ToBytesOfUnsigned(c[..cookie]);
  }

  // ----- all leaves -----

  /** The tag and the body of an encoding that reads as a leaf. */
  lemma LeafParts(v: LuaValue, tag: nat, cookie: nat, c: seq<Byte>)
    requires SizesOk(v) && cookie < MAX_COOKIE && PushValue(tag, cookie, c) == Done(Abs(v), [])
    ensures v.Nil? ==> tag == TYPE_NIL && c == []
    ensures v.Boolean? ==> tag == TYPE_BOOLEAN && c == [] && v.b == (cookie != 0)
    ensures v.Integer? ==> tag == TYPE_NUMBER && GetInteger(cookie, c) == Int(v.i, [])
    ensures v.Real? ==> tag == TYPE_NUMBER && cookie == NUMBER_REAL && c == v.bits
    ensures v.Pointer? ==> tag == TYPE_USERDATA && c == v.bits
  {
    hide GetInteger, ArrayLength, UnpackArray, UnpackHash, Unsigned;
    if |c| >= 8 {
      assert c == c[..8] + c[8..];
    }
  }

  /** Whatever bytes read as a leaf, those that packing writes for it do not come after them. */
  lemma LeafShortest(v: LuaValue, b: seq<Byte>)
    requires SizesOk(v) && !v.Table? && !v.Unsupported? && Unpack(b) == Done(Abs(v), [])
    ensures Pack(v, 0).Bytes? && NotAfter(Pack(v, 0).b, b)
  {
    if v.Str? {
      StringShortest(v.s, b);
    } else {
      Tagged(b);
      LeafParts(v, b[0] % 8, b[0] / 8, b[1..]);
      hide PushValue, IntegerBytes, GetInteger;
      if v.Integer? {
        IntegerShortest(v.i, b[0] / 8, b[1..]);
      }
    }
  }

  // ----- tables -----

  function Len(p: Packed): nat {
    if p.Bytes? then |p.b| else 0
  }

  /** What the first `n` entries add to a table's array part from slot `lo` on, in place of the nils of empty slots, and
      to its hash part. */
  function Shares(t: LuaValue, lo: nat, n: nat, depth: nat): int
    requires SizesOk(t) && t.Table? && n <= |t.entries|
  {
    if n == 0 then 0
    else
      var e := t.entries[n - 1];
      Shares(t, lo, n - 1, depth) +
      if e.key.Integer? && 0 < e.key.i <= t.rawlen then
        if lo <= e.key.i then Len(Pack(e.val, depth)) - 1 else 0
      else Len(Pack(e.key, depth)) + Len(Pack(e.val, depth))
  }

  lemma {:induction false} WithoutSlot(t: LuaValue, i: nat, n: nat, depth: nat)
    requires SizesOk(t) && WellFormed(t) && t.Table? && 1 <= i <= t.rawlen && n <= |t.entries|
    ensures var j := Find(t.entries, i);
      Shares(t, i, n, depth)
        == Shares(t, i + 1, n, depth) + if 0 <= j < n then Len(Pack(t.entries[j].val, depth)) - 1 else 0
  {
    hide Pack, WellFormed;
    if n > 0 {
      WithoutSlot(t, i, n - 1, depth);
      if IsIndex(t.entries[n - 1].key, i) {
        OnlyIndex(t, i, n - 1);
      }
    }
  }

  lemma {:induction false} HashSize(t: LuaValue, k: nat, depth: nat)
    requires SizesOk(t) && WellFormed(t) && t.Table? && k <= |t.entries| && PackHash(t, k, depth).Bytes?
    ensures Len(PackHash(t, k, depth)) + Shares(t, t.rawlen + 1, k, depth)
         == 1 + Shares(t, t.rawlen + 1, |t.entries|, depth)
    decreases |t.entries| - k
  {
    hide Pack, WellFormed;
    PackHashStep(t, k, depth);
    if k < |t.entries| {
      HashSize(t, k + 1, depth);
    }
  }

  lemma {:induction false} PartSizes(t: LuaValue, i: nat, depth: nat)
    requires SizesOk(t) && WellFormed(t) && t.Table? && 1 <= i <= t.rawlen + 1
    requires PackArray(t, i, depth).Bytes? && PackHash(t, 0, depth).Bytes?
    ensures Len(PackArray(t, i, depth)) + Len(PackHash(t, 0, depth))
         == t.rawlen + 1 - i + 1 + Shares(t, i, |t.entries|, depth)
    decreases t.rawlen + 1 - i
  {
    hide Pack, WellFormed, PackHash;
    if i <= t.rawlen {
      PartSizes(t, i + 1, depth);
      WithoutSlot(t, i, |t.entries|, depth);
    } else {
      HashSize(t, 0, depth);
    }
  }

  /** A packed table is its header, a byte for each slot that has no entry, each entry once, and the closing nil: for a
      slot's entry the value alone, for any other its key and its value. */
  lemma EachEntryOnce(t: LuaValue, depth: nat)
    requires SizesOk(t) && WellFormed(t) && t.Table? && Pack(t, depth).Bytes?
    ensures Len(Pack(t, depth))
         == |ArrayHeader(t.rawlen)| + t.rawlen + Shares(t, 1, |t.entries|, depth + 1) + 1
  {
    PackedParts(t, depth, []);
    hide Pack, WellFormed, PackArray, PackHash, ArrayHeader, Shares;
    PartSizes(t, 1, depth + 1);
    var slots, hash := PackArray(t, 1, depth + 1), PackHash(t, 0, depth + 1);
    assert |Pack(t, depth).b + []| == |ArrayHeader(t.rawlen) + (slots.b + (hash.b + []))|;
  }
}
