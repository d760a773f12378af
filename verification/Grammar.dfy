/** The language that reading accepts, written down as a grammar: every form a value may take in the bytes, among them
    many that packing never writes. Reading accepts exactly its sentences and yields exactly their meanings. */
module Grammar {
  import opened Options
  import opened Buffers
  import opened Codec
  import opened RoundTrip
  import opened Shortest

  /** A number form: its tag's cookie and its body. */
  datatype Number = Number(cookie: nat, body: seq<Byte>)

  /** The length of the array part: in the tag, or as a number of which only 32 bits count. */
  datatype Length = Short(n: int) | Long(number: Number, n: int)

  datatype Code =
    | NilCode(cookie: nat)
    | BooleanCode(cookie: nat)
    | NumberCode(number: Number)
    | RealCode(bits: seq<Byte>)
    | PointerCode(cookie: nat, bits: seq<Byte>)
    | ShortCode(s: seq<Byte>)
    | LongCode(width: nat, s: seq<Byte>)
    | TableCode(length: Length, slots: Slots, pairs: Pairs)

  datatype Slots = NoSlots | Slot(first: Code, more: Slots)

  datatype Pairs = Last(cookie: nat) | Pair(key: Code, val: Code, rest: Pairs)

  function Count(slots: Slots): nat {
    if slots.NoSlots? then 0 else 1 + Count(slots.more)
  }

  // ----- which sentences there are -----

  predicate NumberOk(x: Number) {
    || (x.cookie == NUMBER_ZERO && x.body == [])
    || (x.cookie == NUMBER_BYTE && |x.body| == 1)
    || (x.cookie == NUMBER_WORD && |x.body| == 2)
    || (x.cookie == NUMBER_DWORD && |x.body| == 4)
    || (x.cookie == NUMBER_QWORD && |x.body| == 8)
  }

  /** Bytes and words are unsigned, the longer forms signed. */
  function NumberValue(x: Number): (v: Int64)
    requires NumberOk(x)
  {
    Pow256Values();
    if |x.body| <= 2 then Unsigned(x.body) else Signed(x.body)
  }

  /** A length that does not fit 32 bits wraps, and one that is then negative stands for no slots. */
  predicate LengthOk(x: Length, count: nat) {
    match x
    case Short(n) => 0 <= n < MAX_COOKIE - 1 && count == n
    case Long(number, n) =>
      && NumberOk(number) && -0x8000_0000 <= n < 0x8000_0000 && (NumberValue(number) - n) % 0x1_0000_0000 == 0
      && count == if n < 0 then 0 else n
  }

  predicate Ok(c: Code) {
    match c
    case NilCode(cookie) => cookie < MAX_COOKIE
    case BooleanCode(cookie) => cookie < MAX_COOKIE
    case NumberCode(number) => NumberOk(number)
    case RealCode(bits) => |bits| == 8
    case PointerCode(cookie, bits) => cookie < MAX_COOKIE && |bits| == 8
    case ShortCode(s) => |s| < MAX_COOKIE
    case LongCode(width, s) => (width == 2 && |s| < 0x1_0000) || (width == 4 && |s| < 0x8000_0000)
    case TableCode(length, slots, pairs) => LengthOk(length, Count(slots)) && SlotsOk(slots) && PairsOk(pairs)
  }

  predicate SlotsOk(slots: Slots) {
    slots.Slot? ==> Ok(slots.first) && SlotsOk(slots.more)
  }

  /** A key that is nil would end the table. */
  predicate PairsOk(pairs: Pairs) {
    match pairs
    case Last(cookie) => cookie < MAX_COOKIE
    case Pair(key, val, rest) => Ok(key) && !key.NilCode? && Ok(val) && PairsOk(rest)
  }

  // ----- what they look like -----

  function NumberText(x: Number): seq<Byte>
    requires NumberOk(x)
  {
    [Combine(TYPE_NUMBER, x.cookie)] + x.body
  }

  function LengthText(x: Length, count: nat): seq<Byte>
    requires LengthOk(x, count)
  {
    match x
    case Short(n) => [Combine(TYPE_TABLE, n)]
    case Long(number, _) => [Combine(TYPE_TABLE, MAX_COOKIE - 1)] + NumberText(number)
  }

  function Text(c: Code): seq<Byte>
    requires Ok(c)
  {
    match c
    case NilCode(cookie) => [Combine(TYPE_NIL, cookie)]
    case BooleanCode(cookie) => [Combine(TYPE_BOOLEAN, cookie)]
    case NumberCode(number) => NumberText(number)
    case RealCode(bits) => [Combine(TYPE_NUMBER, NUMBER_REAL)] + bits
    case PointerCode(cookie, bits) => [Combine(TYPE_USERDATA, cookie)] + bits
    case ShortCode(s) => [Combine(TYPE_SHORT_STRING, |s|)] + s
    case LongCode(width, s) => [Combine(TYPE_LONG_STRING, width)] + (ToBytes(|s|, width) + s)
    case TableCode(length, slots, pairs) => LengthText(length, Count(slots)) + (SlotsText(slots) + PairsText(pairs))
  }

  function SlotsText(slots: Slots): seq<Byte>
    requires SlotsOk(slots)
  {
    if slots.NoSlots? then [] else Text(slots.first) + SlotsText(slots.more)
  }

  function PairsText(pairs: Pairs): seq<Byte>
    requires PairsOk(pairs)
  {
    match pairs
    case Last(cookie) => [Combine(TYPE_NIL, cookie)]
    case Pair(key, val, rest) => Text(key) + (Text(val) + PairsText(rest))
  }

  // ----- what they mean -----

  function Meaning(c: Code): Value
    requires Ok(c)
    decreases c
  {
    match c
    case NilCode(_) => VNil
    case BooleanCode(cookie) => VBoolean(cookie != 0)
    case NumberCode(number) => VInteger(NumberValue(number))
    case RealCode(bits) => VReal(bits)
    case PointerCode(_, bits) => VPointer(bits)
    case ShortCode(s) => VStr(s)
    case LongCode(_, s) => VStr(s)
    case TableCode(_, slots, pairs) => VTable(PairsMeaning(SlotsMeaning(EMPTY, 1, slots), pairs))
  }

  /** The slots are stored under the indices from `i` on. */
  function SlotsMeaning(t: Content, i: nat, slots: Slots): Content
    requires SlotsOk(slots) && i + Count(slots) <= 0x8000_0000
    decreases slots
  {
    if slots.NoSlots? then t
    else SlotsMeaning(RawSet(t, VInteger(i), Meaning(slots.first)), i + 1, slots.more)
  }

  /** The pairs are stored in their order, so that a later one with the same key wins. */
  function PairsMeaning(t: Content, pairs: Pairs): Content
    requires PairsOk(pairs)
    decreases pairs
  {
    match pairs
    case Last(_) => t
    case Pair(key, val, rest) => PairsMeaning(RawSet(t, Meaning(key), Meaning(val)), rest)
  }

  // ----- every sentence is read -----

  lemma NumberRead(x: Number, rest: seq<Byte>)
    requires NumberOk(x)
    ensures GetInteger(x.cookie, x.body + rest) == Int(NumberValue(x), rest)
  {
    hide Unsigned, Signed;
    Pow256Values();
    assert (x.body + rest)[..|x.body|] == x.body && (x.body + rest)[|x.body|..] == rest;
  }

  lemma LengthBounds(x: Length, count: nat)
    requires LengthOk(x, count)
    ensures x.n < 0x8000_0000 && count == if x.n < 1 then 0 else x.n
  {
  }

  lemma Narrowed(i: Int64, n: int)
    requires -0x8000_0000 <= n < 0x8000_0000 && (i - n) % 0x1_0000_0000 == 0
    ensures ToInt32(i) == n
  {
  }

  lemma LengthRead(x: Length, count: nat, rest: seq<Byte>)
    requires LengthOk(x, count)
    ensures var b := LengthText(x, count) + rest;
            b != [] && b[0] % 8 == TYPE_TABLE && ArrayLength(b[0] / 8, b[1..]) == Some((x.n, rest))
  {
    hide GetInteger, NumberValue, ToInt32;
    var b := LengthText(x, count) + rest;
    if x.Long? {
      Narrowed(NumberValue(x.number), x.n);
      var c := b[1..];
      assert c == [Combine(TYPE_NUMBER, x.number.cookie)] + (x.number.body + rest);
      assert c[1..] == x.number.body + rest;
      NumberRead(x.number, rest);
    } else {
      assert b[1..] == rest;
    }
  }

  lemma LeafRead(c: Code, rest: seq<Byte>)
    requires Ok(c) && !c.TableCode?
    ensures Unpack(Text(c) + rest) == Done(Meaning(c), rest)
  {
    hide Unpack, GetInteger, NumberValue, GetBuffer, LongString, UnpackTable, ToBytes, Unsigned;
    match c
    case NilCode(cookie) => UnpackTagged(TYPE_NIL, cookie, rest);
    case BooleanCode(cookie) => UnpackTagged(TYPE_BOOLEAN, cookie, rest);
    case NumberCode(x) =>
      UnpackTagged(TYPE_NUMBER, x.cookie, x.body + rest);
      Regroup([Combine(TYPE_NUMBER, x.cookie)], [], x.body, rest);
      NumberRead(x, rest);
    case RealCode(bits) =>
      UnpackTagged(TYPE_NUMBER, NUMBER_REAL, bits + rest);
      Regroup([Combine(TYPE_NUMBER, NUMBER_REAL)], [], bits, rest);
      assert (bits + rest)[..8] == bits && (bits + rest)[8..] == rest;
    case PointerCode(cookie, bits) =>
      UnpackTagged(TYPE_USERDATA, cookie, bits + rest);
      Regroup([Combine(TYPE_USERDATA, cookie)], [], bits, rest);
      assert (bits + rest)[..8] == bits && (bits + rest)[8..] == rest;
    case ShortCode(s) =>
      UnpackTagged(TYPE_SHORT_STRING, |s|, s + rest);
      Regroup([Combine(TYPE_SHORT_STRING, |s|)], [], s, rest);
      BufferRoundTrip(s, rest);
    case LongCode(width, s) =>
      UnpackTagged(TYPE_LONG_STRING, width, ToBytes(|s|, width) + (s + rest));
      Regroup([Combine(TYPE_LONG_STRING, width)], ToBytes(|s|, width), s, rest);
      LongStringRoundTrip(s, width, rest);
  }

  lemma TableRead(c: Code, rest: seq<Byte>)
    requires Ok(c) && c.TableCode? && 1 + Count(c.slots) <= 0x8000_0000
    requires UnpackArray(EMPTY, 1, c.length.n, SlotsText(c.slots) + (PairsText(c.pairs) + rest))
          == Filled(SlotsMeaning(EMPTY, 1, c.slots), PairsText(c.pairs) + rest)
    requires UnpackHash(SlotsMeaning(EMPTY, 1, c.slots), PairsText(c.pairs) + rest)
          == Filled(PairsMeaning(SlotsMeaning(EMPTY, 1, c.slots), c.pairs), rest)
    ensures Unpack(Text(c) + rest) == Done(Meaning(c), rest)
  {
    hide Unpack, UnpackArray, UnpackHash, ArrayLength, LengthText, SlotsText, PairsText, LengthOk, SlotsMeaning,
      PairsMeaning, Count;
    LengthBounds(c.length, Count(c.slots));
    var t := SlotsMeaning(EMPTY, 1, c.slots);
    var tail := SlotsText(c.slots) + (PairsText(c.pairs) + rest);
    LengthRead(c.length, Count(c.slots), tail);
    Regroup(LengthText(c.length, Count(c.slots)), SlotsText(c.slots), PairsText(c.pairs), rest);
    var b := LengthText(c.length, Count(c.slots)) + tail;
    assert Text(c) + rest == b;
    TableParts(c.length.n, b, tail, t, PairsText(c.pairs) + rest, PairsMeaning(t, c.pairs), rest);
  }

  /** Every sentence of the grammar, whatever follows it, is read as what it means. */
  lemma {:induction false} SentenceRead(c: Code, rest: seq<Byte>)
    requires Ok(c)
    ensures Unpack(Text(c) + rest) == Done(Meaning(c), rest)
  {
    hide Unpack, UnpackArray, UnpackHash, Text, SlotsText, PairsText, LengthOk, SlotsMeaning, PairsMeaning, Count,
      Meaning;
    if c.TableCode? {
      LengthBounds(c.length, Count(c.slots));
      SlotsRead(c.slots, EMPTY, 1, c.length.n, PairsText(c.pairs) + rest);
      PairsRead(c.pairs, SlotsMeaning(EMPTY, 1, c.slots), rest);
      TableRead(c, rest);
    } else {
      LeafRead(c, rest);
    }
  }

  lemma {:induction false} SlotsRead(slots: Slots, t: Content, i: nat, n: int, rest: seq<Byte>)
    requires SlotsOk(slots) && 1 <= i <= 0x8000_0000 && n < 0x8000_0000
    requires Count(slots) == if n < i then 0 else n + 1 - i
    ensures UnpackArray(t, i, n, SlotsText(slots) + rest) == Filled(SlotsMeaning(t, i, slots), rest)
  {
    hide Unpack, Text, Meaning, RawSet;
    if slots.NoSlots? {
      assert SlotsText(slots) + rest == rest;
    } else {
      Regroup(Text(slots.first), [], SlotsText(slots.more), rest);
      SentenceRead(slots.first, SlotsText(slots.more) + rest);
      SlotsRead(slots.more, RawSet(t, VInteger(i), Meaning(slots.first)), i + 1, n, rest);
    }
  }

  lemma {:induction false} PairsRead(pairs: Pairs, t: Content, rest: seq<Byte>)
    requires PairsOk(pairs)
    ensures UnpackHash(t, PairsText(pairs) + rest) == Filled(PairsMeaning(t, pairs), rest)
  {
    hide Unpack, RawSet;
    match pairs
    case Last(cookie) =>
      LeafRead(NilCode(cookie), rest);
    case Pair(key, val, more) =>
      var c := PairsText(more) + rest;
      Regroup(Text(key), Text(val), PairsText(more), rest);
      SentenceRead(key, Text(val) + c);
      SentenceRead(val, c);
      PairsRead(more, RawSet(t, Meaning(key), Meaning(val)), rest);
      NotNil(key);
      hide UnpackHash, Text, Meaning;
      HashStep(t, PairsText(pairs) + rest, Meaning(key), Text(val) + c, Meaning(val), c);
  }

  lemma NotNil(c: Code)
    requires Ok(c)
    ensures Meaning(c).VNil? <==> c.NilCode?
  {
  }

  // ----- and nothing else is -----

  lemma NumberParsed(cookie: nat, b: seq<Byte>) returns (x: Number)
    requires GetInteger(cookie, b).Int?
    ensures NumberOk(x) && x.cookie == cookie
    ensures NumberValue(x) == GetInteger(cookie, b).i && b == x.body + GetInteger(cookie, b).rest
  {
    hide Unsigned, Signed;
    Pow256Values();
    var n := |b| - |GetInteger(cookie, b).rest|;
    x := Number(cookie, b[..n]);
    assert b == b[..n] + b[n..];
  }

  lemma Narrowing(i: Int64)
    ensures -0x8000_0000 <= ToInt32(i) < 0x8000_0000 && (i - ToInt32(i)) % 0x1_0000_0000 == 0
  {
    assert i - ToInt32(i) == 0x1_0000_0000 * ((i + 0x8000_0000) / 0x1_0000_0000);
  }

  /** A length after the tag. */
  lemma LongLengthParsed(b: seq<Byte>, n: int, rest: seq<Byte>) returns (number: Number)
    requires ArrayLength(MAX_COOKIE - 1, b) == Some((n, rest))
    ensures NumberOk(number) && ToInt32(NumberValue(number)) == n && b == NumberText(number) + rest
  {
    hide GetInteger, NumberValue, ToInt32;
    number := NumberParsed(b[0] / 8, b[1..]);
    Tagged(b);
    Regroup([b[0]], [], number.body, rest);
  }

  lemma LengthParsed(b: seq<Byte>, n: int, rest: seq<Byte>) returns (x: Length)
    requires b != [] && b[0] % 8 == TYPE_TABLE && ArrayLength(b[0] / 8, b[1..]) == Some((n, rest))
    ensures x.n == n && LengthOk(x, if n < 1 then 0 else n)
    ensures b == LengthText(x, if n < 1 then 0 else n) + rest
  {
    hide GetInteger, NumberValue, ToInt32, NumberText;
    Tagged(b);
    if b[0] / 8 == MAX_COOKIE - 1 {
      var number := LongLengthParsed(b[1..], n, rest);
      Narrowing(NumberValue(number));
      x := Long(number, n);
      Regroup([b[0]], [], NumberText(number), rest);
    } else {
      x := Short(n);
    }
  }

  lemma PlainParsed(b: seq<Byte>, v: Value, rest: seq<Byte>) returns (c: Code)
    requires Unpack(b) == Done(v, rest) && b[0] % 8 in {TYPE_NIL, TYPE_BOOLEAN, TYPE_USERDATA}
    ensures Ok(c) && !c.TableCode? && Meaning(c) == v && b == Text(c) + rest
  {
    Tagged(b);
    var cookie, d := b[0] / 8, b[1..];
    if b[0] % 8 == TYPE_NIL {
      c := NilCode(cookie);
    } else if b[0] % 8 == TYPE_BOOLEAN {
      c := BooleanCode(cookie);
    } else {
      c := PointerCode(cookie, d[..8]);
      assert d == d[..8] + d[8..];
    }
  }

  lemma NumericParsed(b: seq<Byte>, v: Value, rest: seq<Byte>) returns (c: Code)
    requires Unpack(b) == Done(v, rest) && b[0] % 8 == TYPE_NUMBER
    ensures Ok(c) && !c.TableCode? && Meaning(c) == v && b == Text(c) + rest
  {
    hide GetInteger, NumberValue;
    Tagged(b);
    var cookie, d := b[0] / 8, b[1..];
    if cookie == NUMBER_REAL {
      c := RealCode(d[..8]);
      assert d == d[..8] + d[8..];
    } else {
      var x := NumberParsed(cookie, d);
      c := NumberCode(x);
    }
  }

  lemma StringParsed(b: seq<Byte>, v: Value, rest: seq<Byte>) returns (c: Code)
    requires Unpack(b) == Done(v, rest) && b[0] % 8 in {TYPE_SHORT_STRING, TYPE_LONG_STRING}
    ensures Ok(c) && !c.TableCode? && Meaning(c) == v && b == Text(c) + rest
  {
    hide GetBuffer, LongString, ToBytes;
    Tagged(b);
    if b[0] % 8 == TYPE_SHORT_STRING {
      c := ShortCode(v.s);
      BufferParsed(b[0] / 8, b[1..], v.s, rest);
    } else {
      c := LongCode(b[0] / 8, v.s);
      LongStringParsed(b[0] / 8, b[1..], v.s, rest);
    }
  }

  lemma BufferParsed(n: nat, b: seq<Byte>, s: seq<Byte>, rest: seq<Byte>)
    requires GetBuffer(n, b) == Done(VStr(s), rest)
    ensures |s| == n && b == s + rest
  {
    assert b == b[..n] + b[n..];
  }

  lemma LongStringParsed(width: nat, b: seq<Byte>, s: seq<Byte>, rest: seq<Byte>)
    requires LongString(width, b) == Done(VStr(s), rest)
    ensures Ok(LongCode(width, s)) && b == ToBytes(|s|, width) + (s + rest)
  {
    hide ToBytes, Unsigned;
    Pow256Values();
    assert b == b[..width] + b[width..];
    ToBytesOfUnsigned(b[..width]);
    BufferParsed(|s|, b[width..], s, rest);
  }

  lemma LeafParsed(b: seq<Byte>, v: Value, rest: seq<Byte>) returns (c: Code)
    requires Unpack(b) == Done(v, rest) && b[0] % 8 != TYPE_TABLE
    ensures Ok(c) && !c.TableCode? && Meaning(c) == v && b == Text(c) + rest
  {
    hide Ok, Meaning, Text;
    TagKnown(b);
    hide Unpack;
    if b[0] % 8 in {TYPE_NIL, TYPE_BOOLEAN, TYPE_USERDATA} {
      c := PlainParsed(b, v, rest);
    } else if b[0] % 8 == TYPE_NUMBER {
      c := NumericParsed(b, v, rest);
    } else {
      c := StringParsed(b, v, rest);
    }
  }

  lemma TagKnown(b: seq<Byte>)
    requires Unpack(b).Done?
    ensures b != [] && b[0] % 8 <= TYPE_TABLE
  {}

  /** Whatever is read is a sentence of the grammar and what followed it. */
  lemma {:induction false} SentenceParsed(b: seq<Byte>) returns (c: Code)
    requires Unpack(b).Done?
    ensures Ok(c) && Meaning(c) == Unpack(b).v && b == Text(c) + Unpack(b).rest
    decreases |b|, 1
  {
    if b[0] % 8 == TYPE_TABLE {
      c := TableParsed(b);
    } else {
      c := LeafParsed(b, Unpack(b).v, Unpack(b).rest);
    }
  }

  lemma TableSteps(b: seq<Byte>)
    returns (n: int, b1: seq<Byte>, t: Content, b2: seq<Byte>, t': Content, rest: seq<Byte>)
    requires Unpack(b).Done? && b[0] % 8 == TYPE_TABLE
    ensures n < 0x8000_0000 && |b1| < |b| && |b2| <= |b1|
    ensures ArrayLength(b[0] / 8, b[1..]) == Some((n, b1))
    ensures UnpackArray(EMPTY, 1, n, b1) == Filled(t, b2) && UnpackHash(t, b2) == Filled(t', rest)
    ensures Unpack(b) == Done(VTable(t'), rest)
  {
    hide ArrayLength, UnpackArray, UnpackHash;
    var cookie, c := b[0] / 8, b[1..];
    assert Unpack(b) == PushValue(TYPE_TABLE, cookie, c);
    assert PushValue(TYPE_TABLE, cookie, c) == UnpackTable(cookie, c);
    n, b1 := ArrayLength(cookie, c).value.0, ArrayLength(cookie, c).value.1;
    t, b2 := UnpackArray(EMPTY, 1, n, b1).t, UnpackArray(EMPTY, 1, n, b1).rest;
    t', rest := UnpackHash(t, b2).t, UnpackHash(t, b2).rest;
  }

  lemma {:induction false} TableParsed(b: seq<Byte>) returns (c: Code)
    requires Unpack(b).Done? && b[0] % 8 == TYPE_TABLE
    ensures Ok(c) && Meaning(c) == Unpack(b).v && b == Text(c) + Unpack(b).rest
    decreases |b|, 0
  {
    hide Unpack, UnpackArray, UnpackHash, ArrayLength, LengthText, SlotsText, PairsText, LengthOk, SlotsMeaning,
      PairsMeaning, Count;
    var n, b1, t, b2, t', rest := TableSteps(b);
    var length := LengthParsed(b, n, b1);
    var slots := SlotsParsed(EMPTY, 1, n, b1);
    var pairs := PairsParsed(t, b2);
    c := TableCode(length, slots, pairs);
    Regroup(LengthText(length, Count(slots)), SlotsText(slots), PairsText(pairs), rest);
  }

  lemma {:induction false} SlotsParsed(t: Content, i: nat, n: int, b: seq<Byte>) returns (slots: Slots)
    requires 1 <= i <= 0x8000_0000 && n < 0x8000_0000 && UnpackArray(t, i, n, b).Filled?
    ensures SlotsOk(slots) && Count(slots) == (if n < i then 0 else n + 1 - i)
    ensures SlotsMeaning(t, i, slots) == UnpackArray(t, i, n, b).t
    ensures b == SlotsText(slots) + UnpackArray(t, i, n, b).rest
    decreases |b|, 2
  {
    hide Unpack, RawSet, Text, Meaning, Ok;
    if n < i {
      slots := NoSlots;
    } else {
      var first := SentenceParsed(b);
      var v, d := Unpack(b).v, Unpack(b).rest;
      var more := SlotsParsed(RawSet(t, VInteger(i), v), i + 1, n, d);
      slots := Slot(first, more);
      Regroup(Text(first), [], SlotsText(more), UnpackArray(t, i, n, b).rest);
    }
  }

  lemma {:induction false} PairsParsed(t: Content, b: seq<Byte>) returns (pairs: Pairs)
    requires UnpackHash(t, b).Filled?
    ensures PairsOk(pairs) && PairsMeaning(t, pairs) == UnpackHash(t, b).t
    ensures b == PairsText(pairs) + UnpackHash(t, b).rest
    decreases |b|, 2
  {
    hide Unpack, RawSet, Text, Meaning, Ok;
    var key := SentenceParsed(b);
    var k, d := Unpack(b).v, Unpack(b).rest;
    NotNil(key);
    if k.VNil? {
      NilText(key);
      pairs := Last(key.cookie);
    } else {
      var val := SentenceParsed(d);
      var more := PairsParsed(RawSet(t, k, Unpack(d).v), Unpack(d).rest);
      pairs := Pair(key, val, more);
      Regroup(Text(key), Text(val), PairsText(more), UnpackHash(t, b).rest);
    }
  }

  lemma NilText(c: Code)
    requires Ok(c) && c.NilCode?
    ensures c.cookie < MAX_COOKIE && Text(c) == [Combine(TYPE_NIL, c.cookie)]
  {}

  /** Reading, as a whole: exactly the sentences of the grammar are read, each as what it means and no further than it
      goes. */
  lemma ReadsExactly(b: seq<Byte>, v: Value, rest: seq<Byte>)
    ensures Unpack(b) == Done(v, rest) <==> exists c :: Ok(c) && Meaning(c) == v && b == Text(c) + rest
  {
    hide Unpack, Ok, Meaning, Text;
    if Unpack(b) == Done(v, rest) {
      var c := SentenceParsed(b);
    }
    forall c | Ok(c) && Meaning(c) == v && b == Text(c) + rest ensures Unpack(b) == Done(v, rest) {
      SentenceRead(c, rest);
    }
  }
}
