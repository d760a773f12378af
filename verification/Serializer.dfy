/** `lua_serialize` as it runs: bytes are appended to a buffer in place and read through a moving cursor. Every
    method is proved against the functions of module Codec. */
module Serializer {
  import opened Options
  import opened Buffers
  import opened Codec
  import opened RoundTrip

  method WriteInteger(buf: Buffer, v: Int64)
    requires buf.Valid()
    modifies buf, buf.data
    ensures buf.Valid() && (buf.data == old(buf.data) || fresh(buf.data))
    ensures buf.Contents() == old(buf.Contents()) + IntegerBytes(v)
  {
    WidthFits(v);
    ghost var start, size := buf.Contents(), Width(v);
    hide IntegerBytes, ToBytes, Unsigned, Signed;
    var width := 0;
    var cookie := NUMBER_ZERO;
    if v == 0 {
    } else if !(-0x8000_0000 <= v < 0x8000_0000) {
      width, cookie := 8, NUMBER_QWORD;
    } else if v < 0 {
      width, cookie := 4, NUMBER_DWORD;
    } else if v < 0x100 {
      width, cookie := 1, NUMBER_BYTE;
    } else if v < 0x1_0000 {
      width, cookie := 2, NUMBER_WORD;
    } else {
      width, cookie := 4, NUMBER_DWORD;
    }
    assert width == size && cookie == if size == 8 then NUMBER_QWORD else size;
    hide Width;
    buf.WriteBack([Combine(TYPE_NUMBER, cookie)]);
    buf.WriteBack(ToBytes(v, width));
    Join(start, [Combine(TYPE_NUMBER, cookie)], ToBytes(v, width));
  }

  method WriteString(buf: Buffer, s: seq<Byte>)
    requires buf.Valid() && |s| < 0x8000_0000
    modifies buf, buf.data
    ensures buf.Valid() && (buf.data == old(buf.data) || fresh(buf.data))
    ensures buf.Contents() == old(buf.Contents()) + StringBytes(s)
  {
    hide ToBytes;
    ghost var start := buf.Contents();
    if |s| < MAX_COOKIE {
      buf.WriteBack([Combine(TYPE_SHORT_STRING, |s|)]);
      buf.WriteBack(s);
      Join(start, [Combine(TYPE_SHORT_STRING, |s|)], s);
    } else {
      var width := if |s| < 0x1_0000 then 2 else 4;
      var tag, length := [Combine(TYPE_LONG_STRING, width)], ToBytes(|s|, width);
      buf.WriteBack(tag);
      buf.WriteBack(length);
      buf.WriteBack(s);
      Join(start, tag, length);
      Join(start, tag + length, s);
    }
  }

  /** Packs one value that is inside `depth` tables. A refusal leaves the buffer with part of the value in it. */
  method PackOne(buf: Buffer, v: LuaValue, depth: nat) returns (ok: bool)
    requires buf.Valid() && SizesOk(v)
    modifies buf, buf.data
    ensures buf.Valid() && (buf.data == old(buf.data) || fresh(buf.data))
    ensures ok <==> Pack(v, depth).Bytes?
    ensures ok ==> buf.Contents() == old(buf.Contents()) + Pack(v, depth).b
    decreases v, 2
  {
    if depth > MAX_DEPTH {
      return false;
    }
    hide IntegerBytes, StringBytes, ArrayHeader, PackArray, PackHash;
    ghost var start := buf.Contents();
    ok := true;
    match v
    case Nil => buf.WriteBack([TYPE_NIL]);
    case Boolean(b) => buf.WriteBack([Combine(TYPE_BOOLEAN, if b then 1 else 0)]);
    case Integer(i) => WriteInteger(buf, i);
    case Real(bits) =>
      buf.WriteBack([Combine(TYPE_NUMBER, NUMBER_REAL)]);
      buf.WriteBack(bits);
      Join(start, [Combine(TYPE_NUMBER, NUMBER_REAL)], bits);
    case Str(s) => WriteString(buf, s);
    case Pointer(bits) =>
      buf.WriteBack([TYPE_USERDATA]);
      buf.WriteBack(bits);
      Join(start, [TYPE_USERDATA], bits);
    case Table(_, _) => ok := PackTable(buf, v, depth + 1);
    case Unsupported => ok := false;
  }

  method PackTable(buf: Buffer, t: LuaValue, depth: nat) returns (ok: bool)
    requires buf.Valid() && SizesOk(t) && t.Table?
    modifies buf, buf.data
    ensures buf.Valid() && (buf.data == old(buf.data) || fresh(buf.data))
    ensures var packed := Then(Bytes(ArrayHeader(t.rawlen)), Then(PackArray(t, 1, depth), PackHash(t, 0, depth)));
      (ok <==> packed.Bytes?) && (ok ==> buf.Contents() == old(buf.Contents()) + packed.b)
    decreases t, 1, 1
  {
    hide ArrayHeader, PackArray, PackHash;
    ghost var start := buf.Contents();
    WriteHeader(buf, t.rawlen);
    ok := PackArrayPart(buf, t, depth);
    if ok {
      ok := PackHashPart(buf, t, depth);
    }
    if ok {
      ghost var header, slots, hash := ArrayHeader(t.rawlen), PackArray(t, 1, depth).b, PackHash(t, 0, depth).b;
      Join(start + header, slots, hash);
      Join(start, header, slots + hash);
    }
  }

  method WriteHeader(buf: Buffer, n: nat)
    requires buf.Valid() && n < 0x8000_0000
    modifies buf, buf.data
    ensures buf.Valid() && (buf.data == old(buf.data) || fresh(buf.data))
    ensures buf.Contents() == old(buf.Contents()) + ArrayHeader(n)
  {
    hide IntegerBytes;
    ghost var start := buf.Contents();
    if n >= MAX_COOKIE - 1 {
      buf.WriteBack([Combine(TYPE_TABLE, MAX_COOKIE - 1)]);
      WriteInteger(buf, n);
      Join(start, [Combine(TYPE_TABLE, MAX_COOKIE - 1)], IntegerBytes(n));
    } else {
      buf.WriteBack([Combine(TYPE_TABLE, n)]);
    }
  }

  method PackArrayPart(buf: Buffer, t: LuaValue, depth: nat) returns (ok: bool)
    requires buf.Valid() && SizesOk(t) && t.Table?
    modifies buf, buf.data
    ensures buf.Valid() && (buf.data == old(buf.data) || fresh(buf.data))
    ensures ok <==> PackArray(t, 1, depth).Bytes?
    ensures ok ==> buf.Contents() == old(buf.Contents()) + PackArray(t, 1, depth).b
    decreases t, 1, 0
  {
    hide Pack;
    var n := t.rawlen;
    ghost var start := buf.Contents();
    ghost var done: seq<Byte> := [];
    Unit(PackArray(t, 1, depth));
    var i := 1;
    ok := true;
    while i <= n
      invariant 1 <= i <= n + 1 && ok
      invariant buf.Valid() && (buf.data == old(buf.data) || fresh(buf.data))
      invariant PackArray(t, 1, depth) == Then(Bytes(done), PackArray(t, i, depth))
      invariant buf.Contents() == start + done
    {
      var j := Find(t.entries, i);
      ghost var one := if j >= 0 then Pack(t.entries[j].val, depth) else PackNil(depth);
      assert PackArray(t, i, depth) == Then(one, PackArray(t, i + 1, depth));
      ThenStep(done, one, PackArray(t, i + 1, depth));
      if j >= 0 {
        ok := PackOne(buf, t.entries[j].val, depth);
      } else {
        ok := WriteNil(buf, depth);
      }
      if !ok {
        return;
      }
      Join(start, done, one.b);
      done := done + one.b;
      i := i + 1;
    }
  }

  method PackHashPart(buf: Buffer, t: LuaValue, depth: nat) returns (ok: bool)
    requires buf.Valid() && SizesOk(t) && t.Table?
    modifies buf, buf.data
    ensures buf.Valid() && (buf.data == old(buf.data) || fresh(buf.data))
    ensures ok <==> PackHash(t, 0, depth).Bytes?
    ensures ok ==> buf.Contents() == old(buf.Contents()) + PackHash(t, 0, depth).b
    decreases t, 1, 0
  {
    hide Pack, InArray;
    ghost var start := buf.Contents();
    ghost var done: seq<Byte> := [];
    Unit(PackHash(t, 0, depth));
    var k := 0;
    ok := true;
    while k < |t.entries|
      invariant k <= |t.entries| && ok
      invariant buf.Valid() && (buf.data == old(buf.data) || fresh(buf.data))
      invariant PackHash(t, 0, depth) == Then(Bytes(done), PackHash(t, k, depth))
      invariant buf.Contents() == start + done
    {
      var e := t.entries[k];
      if InArray(t, e.key) {
        k := k + 1;
        continue;
      }
      ghost var key, val, more := Pack(e.key, depth), Pack(e.val, depth), PackHash(t, k + 1, depth);
      assert PackHash(t, k, depth) == Then(key, Then(val, more));
      ThenStep(done, key, Then(val, more));
      ok := PackOne(buf, e.key, depth);
      if !ok {
        return;
      }
      Join(start, done, key.b);
      ThenStep(done + key.b, val, more);
      ok := PackOne(buf, e.val, depth);
      if !ok {
        return;
      }
      Join(start, done + key.b, val.b);
      done := done + key.b + val.b;
      k := k + 1;
    }
    buf.WriteBack([TYPE_NIL]);
    Join(start, done, [TYPE_NIL]);
  }

  function PackNil(depth: nat): Packed {
    if depth > MAX_DEPTH then Refused else Bytes([TYPE_NIL])
  }

  /** `pack_one` for a hole in the array part. */
  method WriteNil(buf: Buffer, depth: nat) returns (ok: bool)
    requires buf.Valid()
    modifies buf, buf.data
    ensures buf.Valid() && (buf.data == old(buf.data) || fresh(buf.data))
    ensures ok <==> PackNil(depth).Bytes?
    ensures ok ==> buf.Contents() == old(buf.Contents()) + PackNil(depth).b
  {
    ok := depth <= MAX_DEPTH;
    if ok {
      buf.WriteBack([TYPE_NIL]);
    }
  }

  lemma Unit(p: Packed)
    ensures Then(Bytes([]), p) == p
  {
    if p.Bytes? {
      assert [] + p.b == p.b;
    }
  }

  lemma ThenStep(done: seq<Byte>, one: Packed, more: Packed)
    ensures one.Refused? ==> Then(Bytes(done), Then(one, more)) == Refused
    ensures one.Bytes? ==> Then(Bytes(done), Then(one, more)) == Then(Bytes(done + one.b), more)
  {
    if one.Bytes? && more.Bytes? {
      assert done + (one.b + more.b) == done + one.b + more.b;
    }
  }

  lemma Join(a: seq<Byte>, b: seq<Byte>, c: seq<Byte>)
    ensures a + b + c == a + (b + c)
  {}

  /** `pack`: a buffer holding all values, unless one of them is refused; no buffer at all for no values. */
  method PackValues(vs: seq<LuaValue>) returns (ok: bool, r: Option<Buffer>)
    requires forall k :: 0 <= k < |vs| ==> SizesOk(vs[k])
    ensures ok <==> PackAll(vs).Bytes?
    ensures r.Some? <==> ok && vs != []
    ensures r.Some? ==> fresh(r.value) && r.value.Valid() && r.value.Contents() == PackAll(vs).b
  {
    if |vs| == 0 {
      return true, None;
    }
    var buf := new Buffer(64, 14);
    ghost var done: seq<Byte> := [];
    Unit(PackAll(vs));
    assert vs[0..] == vs;
    for i := 0 to |vs|
      invariant buf.Valid() && fresh(buf) && fresh(buf.data)
      invariant buf.Contents() == done
      invariant PackAll(vs) == Then(Bytes(done), PackAll(vs[i..]))
    {
      assert vs[i..][0] == vs[i] && vs[i..][1..] == vs[i + 1..];
      ThenStep(done, Pack(vs[i], 0), PackAll(vs[i + 1..]));
      ok := PackOne(buf, vs[i], 0);
      if !ok {
        return false, None;
      }
      done := done + Pack(vs[i], 0).b;
    }
    assert vs[|vs|..] == [];
    assert done + [] == done;
    ok, r := true, Some(buf);
  }

  // ----- reading -----

  method ReadInteger(view: View, cookie: nat) returns (r: Option<Int64>)
    requires view.Valid()
    modifies view
    ensures view.Valid()
    ensures match GetInteger(cookie, old(view.Remaining()))
            case NoInt => r == None
            case Int(i, rest) => r == Some(i) && view.Remaining() == rest
  {
    if cookie == NUMBER_ZERO {
      return Some(0);
    }
    Pow256Values();
    var width := if cookie == NUMBER_BYTE then 1 else if cookie == NUMBER_WORD then 2
      else if cookie == NUMBER_DWORD then 4 else if cookie == NUMBER_QWORD then 8 else 0;
    if width == 0 {
      return None;
    }
    var ok, bytes := view.Read(width);
    if !ok {
      return None;
    }
    r := Some(if width <= 2 then Unsigned(bytes) else Signed(bytes));
  }

  method ReadBuffer(view: View, len: nat) returns (r: Option<Value>)
    requires view.Valid()
    modifies view
    ensures view.Valid()
    ensures match GetBuffer(len, old(view.Remaining()))
            case Invalid => r == None
            case Done(v, rest) => r == Some(v) && view.Remaining() == rest
  {
    if view.size - view.readpos < len {
      return None;
    }
    r := Some(VStr(view.bytes[view.readpos..view.readpos + len]));
    assert view.bytes[view.readpos..view.readpos + len] == view.Remaining()[..len];
    view.Skip(len);
  }

  method ReadLongString(view: View, cookie: nat) returns (r: Option<Value>)
    requires view.Valid()
    modifies view
    ensures view.Valid()
    ensures match LongString(cookie, old(view.Remaining()))
            case Invalid => r == None
            case Done(v, rest) => r == Some(v) && view.Remaining() == rest
  {
    if cookie != 2 && cookie != 4 {
      return None;
    }
    var ok, bytes := view.Read(cookie);
    if !ok || Unsigned(bytes) >= 0x8000_0000 {
      return None;
    }
    r := ReadBuffer(view, Unsigned(bytes));
  }

  method ReadArrayLength(view: View, cookie: nat) returns (r: Option<int>)
    requires view.Valid() && cookie < MAX_COOKIE
    modifies view
    ensures view.Valid()
    ensures match ArrayLength(cookie, old(view.Remaining()))
            case None => r == None
            case Some((n, rest)) => r == Some(n) && view.Remaining() == rest
  {
    if cookie != MAX_COOKIE - 1 {
      return Some(cookie);
    }
    var ok, bytes := view.Read(1);
    if !ok || bytes[0] % 8 != TYPE_NUMBER || bytes[0] / 8 == NUMBER_REAL {
      return None;
    }
    var i := ReadInteger(view, bytes[0] / 8);
    if i == None {
      return None;
    }
    r := Some(ToInt32(i.value));
  }

  ghost predicate Reads(u: Unpacked, r: Option<Value>, rest: seq<Byte>) {
    match u
    case Invalid => r == None
    case Done(v, b) => r == Some(v) && rest == b
  }

  method UnpackOne(view: View) returns (r: Option<Value>)
    requires view.Valid()
    modifies view
    ensures view.Valid() && Reads(Unpack(old(view.Remaining())), r, view.Remaining())
    decreases |view.Remaining()|, 0
  {
    var ok, bytes := view.Read(1);
    if !ok {
      return None;
    }
    r := PushOne(view, bytes[0] % 8, bytes[0] / 8);
  }

  method PushOne(view: View, tag: nat, cookie: nat) returns (r: Option<Value>)
    requires view.Valid() && cookie < MAX_COOKIE
    modifies view
    ensures view.Valid() && Reads(PushValue(tag, cookie, old(view.Remaining())), r, view.Remaining())
    decreases |view.Remaining()|, 3
  {
    hide GetInteger, GetBuffer, LongString, UnpackTable;
    if tag == TYPE_NIL {
      r := Some(VNil);
    } else if tag == TYPE_BOOLEAN {
      r := Some(VBoolean(cookie != 0));
    } else if tag == TYPE_NUMBER && cookie != NUMBER_REAL {
      var i := ReadInteger(view, cookie);
      r := if i.Some? then Some(VInteger(i.value)) else None;
    } else if tag == TYPE_NUMBER || tag == TYPE_USERDATA {
      var ok, bytes := view.Read(8);
      r := if !ok then None else if tag == TYPE_NUMBER then Some(VReal(bytes)) else Some(VPointer(bytes));
    } else if tag == TYPE_SHORT_STRING {
      r := ReadBuffer(view, cookie);
    } else if tag == TYPE_LONG_STRING {
      r := ReadLongString(view, cookie);
    } else if tag == TYPE_TABLE {
      r := UnpackTableValue(view, cookie);
    } else {
      r := None;
    }
  }

  lemma ArrayRound(t: Content, i: nat, n: int, b: seq<Byte>)
    requires n < 0x8000_0000
    ensures UnpackArray(t, i, n, b) ==
      if i > n then Filled(t, b)
      else
        match Unpack(b)
        case Invalid => Broken
        case Done(v, rest) => UnpackArray(RawSet(t, VInteger(i), v), i + 1, n, rest)
  {
    hide Unpack;
  }

  lemma HashRound(t: Content, b: seq<Byte>)
    ensures Unpack(b).Invalid? ==> UnpackHash(t, b) == Broken
    ensures Unpack(b).Done? && Unpack(b).v.VNil? ==> UnpackHash(t, b) == Filled(t, Unpack(b).rest)
    ensures Unpack(b).Done? && !Unpack(b).v.VNil? ==>
      var u := Unpack(Unpack(b).rest);
      UnpackHash(t, b) == if u.Invalid? then Broken else UnpackHash(RawSet(t, Unpack(b).v, u.v), u.rest)
  {
    hide Unpack;
  }

  method UnpackTableValue(view: View, cookie: nat) returns (r: Option<Value>)
    requires view.Valid() && cookie < MAX_COOKIE
    modifies view
    ensures view.Valid() && Reads(UnpackTable(cookie, old(view.Remaining())), r, view.Remaining())
    decreases |view.Remaining()|, 2
  {
    hide Unpack, UnpackArray, UnpackHash;
    var length := ReadArrayLength(view, cookie);
    if length == None {
      return None;
    }
    var n := length.value;
    ghost var b1 := view.Remaining();
    var t := EMPTY;
    var i := 1;
    while i <= n
      invariant 1 <= i && view.Valid() && |view.Remaining()| <= |b1|
      invariant UnpackArray(t, i, n, view.Remaining()) == UnpackArray(EMPTY, 1, n, b1)
      decreases n - i
    {
      ArrayRound(t, i, n, view.Remaining());
      var v := UnpackOne(view);
      if v == None {
        return None;
      }
      t := RawSet(t, VInteger(i), v.value);
      i := i + 1;
    }
    ArrayRound(t, i, n, view.Remaining());
    ghost var t2, b2 := t, view.Remaining();
    while true
      invariant view.Valid() && |view.Remaining()| <= |b2|
      invariant UnpackHash(t, view.Remaining()) == UnpackHash(t2, b2)
      decreases |view.Remaining()|
    {
      HashRound(t, view.Remaining());
      var key := UnpackOne(view);
      if key == None {
        return None;
      }
      if key.value.VNil? {
        return Some(VTable(t));
      }
      var val := UnpackOne(view);
      if val == None {
        return None;
      }
      t := RawSet(t, key.value, val.value);
    }
  }

  function Onto(vs: seq<Value>, more: Option<seq<Value>>): Option<seq<Value>> {
    if more == None then None else Some(vs + more.value)
  }

  lemma OntoNothing(more: Option<seq<Value>>)
    ensures Onto([], more) == more
  {
    assert more.Some? ==> [] + more.value == more.value;
  }

  lemma UnpackAllStep(vs: seq<Value>, b: seq<Byte>)
    ensures b == [] ==> Onto(vs, UnpackAll(b)) == Some(vs)
    ensures b != [] ==> Unpack(b) == PushValue(b[0] % 8, b[0] / 8, b[1..])
    ensures b != [] && Unpack(b).Invalid? ==> Onto(vs, UnpackAll(b)) == None
    ensures b != [] && Unpack(b).Done? ==> Onto(vs, UnpackAll(b)) == Onto(vs + [Unpack(b).v], UnpackAll(Unpack(b).rest))
  {
    hide PushValue;
    assert vs + [] == vs;
    if Unpack(b).Done? && UnpackAll(Unpack(b).rest).Some? {
      var v, more := Unpack(b).v, UnpackAll(Unpack(b).rest).value;
      assert vs + ([v] + more) == vs + [v] + more;
    }
  }

  /** `lua_serialize_do_unpack`: all values up to the end of the bytes. */
  method UnpackValues(data: seq<Byte>) returns (r: Option<seq<Value>>)
    ensures r == UnpackAll(data)
  {
    hide Unpack, UnpackAll, PushValue, Onto;
    var view := new View(data);
    var vs: seq<Value> := [];
    OntoNothing(UnpackAll(data));
    while true
      invariant fresh(view) && view.Valid()
      invariant UnpackAll(data) == Onto(vs, UnpackAll(view.Remaining()))
      decreases |view.Remaining()|
    {
      UnpackAllStep(vs, view.Remaining());
      var ok, bytes := view.Read(1);
      if !ok {
        return Some(vs);
      }
      var v := PushOne(view, bytes[0] % 8, bytes[0] / 8);
      if v == None {
        return None;
      }
      vs := vs + [v.value];
    }
  }

  /** The Lua function `unpack_one`: one value from the front of a buffer, which is advanced past it. An empty
      buffer yields no value and no error. */
  method UnpackFront(buf: Buffer) returns (r: Option<Value>, empty: bool)
    requires buf.Valid()
    modifies buf`readpos
    ensures buf.Valid()
    ensures empty <==> old(buf.Contents()) == []
    ensures !empty ==>
      match Unpack(old(buf.Contents()))
      case Invalid => r == None && buf.Contents() == old(buf.Contents())
      case Done(v, rest) => r == Some(v) && buf.Contents() == rest
  {
    ghost var b := buf.Contents();
    UnpackAllStep([], b);
    hide Unpack, PushValue, UnpackAll, Onto;
    var view := new View(buf.data[buf.readpos..buf.writepos]);
    var ok, bytes := view.Read(1);
    empty := !ok;
    if !ok {
      return None, empty;
    }
    r := PushOne(view, bytes[0] % 8, bytes[0] / 8);
    if r == None {
      return;
    }
    assert view.Remaining() == b[|b| - |view.Remaining()|..];
    buf.Seek((buf.writepos - buf.readpos) - (view.size - view.readpos));
  }

  /** Repeated `unpack_one` on a buffer yields the list that `unpack` yields at once. */
  method UnpackEach(buf: Buffer) returns (r: Option<seq<Value>>)
    requires buf.Valid()
    modifies buf`readpos
    ensures buf.Valid() && r == UnpackAll(old(buf.Contents()))
  {
    hide Unpack, UnpackAll, Onto;
    var vs: seq<Value> := [];
    OntoNothing(UnpackAll(buf.Contents()));
    while true
      invariant buf.Valid()
      invariant UnpackAll(old(buf.Contents())) == Onto(vs, UnpackAll(buf.Contents()))
      decreases |buf.Contents()|
    {
      UnpackAllStep(vs, buf.Contents());
      var v, empty := UnpackFront(buf);
      if empty {
        return Some(vs);
      }
      if v == None {
        return None;
      }
      vs := vs + [v.value];
    }
  }
}
