/** What the wheels mean: every key stands for a pair (timer id, due tick). Insertion adds one pair, popping a
    slot of wheel 0 removes the pairs of one tick, and the cascade between wheels changes nothing. */
module WheelTable {
  import opened Wheels

  // ----- counting pairs, for any reading of the keys -----

  function Count(keys: seq<Key>, f: Key -> Entry, e: Entry): nat {
    if keys == [] then 0 else (if f(keys[0]) == e then 1 else 0) + Count(keys[1..], f, e)
  }

  function SlotsCount(slots: seq<seq<Key>>, f: Key -> Entry, e: Entry): nat {
    if slots == [] then 0 else Count(slots[0], f, e) + SlotsCount(slots[1..], f, e)
  }

  /** `fs[i]` reads the keys of wheel `i`. */
  function WheelsCount(ws: Wheels, fs: seq<Key -> Entry>, e: Entry): nat
    requires |ws| == LEVELS && |fs| == LEVELS
  {
    SlotsCount(ws[0].slots, fs[0], e) + SlotsCount(ws[1].slots, fs[1], e)
    + SlotsCount(ws[2].slots, fs[2], e) + SlotsCount(ws[3].slots, fs[3], e)
  }

  lemma {:induction false} CountAppend(keys: seq<Key>, key: Key, f: Key -> Entry, e: Entry)
    ensures Count(keys + [key], f, e) == Count(keys, f, e) + if f(key) == e then 1 else 0
  {
    if keys == [] {
      assert (keys + [key])[1..] == [];
    } else {
      assert (keys + [key])[1..] == keys[1..] + [key];
      CountAppend(keys[1..], key, f, e);
    }
  }

  lemma {:induction false} CountSame(keys: seq<Key>, f: Key -> Entry, g: Key -> Entry, e: Entry)
    requires forall k :: k in keys ==> f(k) == g(k)
    ensures Count(keys, f, e) == Count(keys, g, e)
  {
    if keys != [] {
      CountSame(keys[1..], f, g, e);
    }
  }

  lemma {:induction false} SlotsCountUpdate(slots: seq<seq<Key>>, j: nat, keys: seq<Key>, f: Key -> Entry, e: Entry)
    requires j < |slots|
    ensures SlotsCount(slots[j := keys], f, e) == SlotsCount(slots, f, e) - Count(slots[j], f, e) + Count(keys, f, e)
  {
    var slots' := slots[j := keys];
    if j == 0 {
      assert slots'[1..] == slots[1..];
    } else {
      assert slots'[1..] == slots[1..][j - 1 := keys];
      SlotsCountUpdate(slots[1..], j - 1, keys, f, e);
    }
  }

  lemma {:induction false} SlotsCountEmpty(slots: seq<seq<Key>>, f: Key -> Entry, e: Entry)
    requires forall s :: 0 <= s < |slots| ==> slots[s] == []
    ensures SlotsCount(slots, f, e) == 0
  {
    if slots != [] {
      SlotsCountEmpty(slots[1..], f, e);
    }
  }

  // ----- the table -----

  function Heads(ws: Wheels): seq<nat>
    requires |ws| == LEVELS
  {
    [ws[0].head, ws[1].head, ws[2].head, ws[3].head]
  }

  /** Ticks by which the reading of the heads up to `level` lags behind while the advance of the head of wheel
      `pending` is still outstanding; `pending == LEVELS` means none is. */
  function Lag(pending: nat, level: nat): nat
    requires pending <= LEVELS
  {
    if pending <= level then Weight(pending) else 0
  }

  /** The tick that a key of wheel `level` with digit sum 0 would be due on. */
  function Origin(heads: seq<nat>, pending: nat, clock: int, level: nat): int
    requires |heads| == LEVELS && pending <= LEVELS && level < LEVELS
  {
    clock + 1 - Base(heads, level) - Lag(pending, level)
  }

  function DueAt(level: nat, origin: int): Key -> Entry
    requires level < LEVELS
  {
    (key: Key) => (KeyId(key), DigitSum(key, level) + origin)
  }

  function Dues(heads: seq<nat>, pending: nat, clock: int): seq<Key -> Entry>
    requires |heads| == LEVELS && pending <= LEVELS
  {
    [DueAt(0, Origin(heads, pending, clock, 0)), DueAt(1, Origin(heads, pending, clock, 1)),
     DueAt(2, Origin(heads, pending, clock, 2)), DueAt(3, Origin(heads, pending, clock, 3))]
  }

  /** How many keys in the wheels stand for the pair `e` when `clock` ticks have passed. */
  function Table(ws: Wheels, pending: nat, clock: int, e: Entry): nat
    requires |ws| == LEVELS && pending <= LEVELS
  {
    WheelsCount(ws, Dues(Heads(ws), pending, clock), e)
  }

  ghost predicate KeyOk(key: Key, level: nat, slot: nat)
    requires level < LEVELS
  {
    GetSlot(key, level) == slot && forall j :: 0 <= j <= level ==> GetSlot(key, j) < SIZE
  }

  ghost predicate WheelOk(w: Wheel, level: nat)
    requires level < LEVELS
  {
    && w.head < SIZE
    && |w.slots| == SIZE
    && (forall s :: 0 <= s < w.head ==> w.slots[s] == [])
    && (forall s, k :: 0 <= s < SIZE && k in w.slots[s] ==> KeyOk(k, level, s))
  }

  /** The array bounds the code relies on. */
  ghost predicate Shaped(ws: Wheels) {
    |ws| == LEVELS && forall i :: 0 <= i < LEVELS ==> ws[i].head < SIZE && |ws[i].slots| == SIZE
  }

  /** Byte L of a key on wheel L is its slot, and no key lies behind the head of its wheel. */
  ghost predicate WheelsOk(ws: Wheels) {
    |ws| == LEVELS && forall i :: 0 <= i < LEVELS ==> WheelOk(ws[i], i)
  }

  // ----- insertion -----

  function PushBack(ws: Wheels, level: nat, slot: nat, key: Key): Wheels
    requires level < |ws| && slot < |ws[level].slots|
  {
    ws[level := ws[level].(slots := ws[level].slots[slot := ws[level].slots[slot] + [key]])]
  }

  /** `insert_timer` after its duration has been turned into `n` ticks. */
  function Insert(ws: Wheels, id: TimerId, n: nat): (ws': Wheels)
    requires Shaped(ws) && n > 0
    ensures Shaped(ws') && Heads(ws') == Heads(ws)
  {
    SpotExact(Heads(ws), n);
    match FindSpot(Heads(ws), 0, n, 0)
    case Lost => ws
    case Spot(level, slots) => PushBack(ws, level, GetSlot(slots, level), MakeKey(id, slots))
  }

  lemma PushBackCount(ws: Wheels, level: nat, slot: nat, key: Key, fs: seq<Key -> Entry>, e: Entry)
    requires |ws| == LEVELS && |fs| == LEVELS && level < LEVELS && slot < |ws[level].slots|
    ensures WheelsCount(PushBack(ws, level, slot, key), fs, e)
         == WheelsCount(ws, fs, e) + if fs[level](key) == e then 1 else 0
  {
    var keys := ws[level].slots[slot];
    SlotsCountUpdate(ws[level].slots, slot, keys + [key], fs[level], e);
    CountAppend(keys, key, fs[level], e);
    if level == 0 {} else if level == 1 {} else if level == 2 {} else {}
  }

  lemma PushBackOk(ws: Wheels, level: nat, slot: nat, key: Key)
    requires WheelsOk(ws) && level < LEVELS && ws[level].head <= slot < SIZE && KeyOk(key, level, slot)
    ensures WheelsOk(PushBack(ws, level, slot, key))
  {
    var ws' := PushBack(ws, level, slot, key);
    assert WheelOk(ws'[level], level);
    assert forall l :: 0 <= l < LEVELS && l != level ==> ws'[l] == ws[l];
  }

  lemma PlacedKey(heads: seq<nat>, id: TimerId, n: nat, spot: Spot)
    requires ValidHeads(heads) && n > 0 && SpotOk(heads, n, spot)
    ensures KeyId(MakeKey(id, spot.slots)) == id
    ensures KeyOk(MakeKey(id, spot.slots), spot.level, GetSlot(spot.slots, spot.level))
    ensures DigitSum(MakeKey(id, spot.slots), spot.level) == n - 1 + Base(heads, spot.level)
  {
    KeyFields(id, spot.slots);
  }

  lemma PlacedDue(heads: seq<nat>, id: TimerId, n: nat, spot: Spot, pending: nat, clock: int)
    requires ValidHeads(heads) && n > 0 && SpotOk(heads, n, spot) && pending <= LEVELS
    ensures Dues(heads, pending, clock)[spot.level](MakeKey(id, spot.slots))
         == (id, clock + n - Lag(pending, spot.level))
  {
    PlacedKey(heads, id, n, spot);
    var level := spot.level;
    assert Dues(heads, pending, clock)[level] == DueAt(level, Origin(heads, pending, clock, level));
  }

  /** How often an insertion of `id` for `n` ticks adds the pair `e`: once, `n` ticks after the reading of the heads
      at the level it is placed on, unless it is lost. */
  function Added(heads: seq<nat>, id: TimerId, n: nat, pending: nat, clock: int, e: Entry): nat
    requires |heads| == LEVELS && n > 0 && pending <= LEVELS
  {
    match FindSpot(heads, 0, n, 0)
    case Lost => 0
    case Spot(level, _) => if e == (id, clock + n - Lag(pending, level)) then 1 else 0
  }

  /** An insertion adds that pair, and nothing else. */
  lemma InsertTable(ws: Wheels, id: TimerId, n: nat, pending: nat, clock: int, e: Entry)
    requires WheelsOk(ws) && n > 0 && pending <= LEVELS
    ensures Table(Insert(ws, id, n), pending, clock, e)
         == Table(ws, pending, clock, e) + Added(Heads(ws), id, n, pending, clock, e)
  {
    hide FindSpot, MakeKey, GetSlot, KeyId, DigitSum, Origin, Lag, SlotsCount, Base;
    SpotExact(Heads(ws), n);
    var spot := FindSpot(Heads(ws), 0, n, 0);
    if spot.Spot? {
      var key, slot := MakeKey(id, spot.slots), GetSlot(spot.slots, spot.level);
      var fs := Dues(Heads(ws), pending, clock);
      PlacedDue(Heads(ws), id, n, spot, pending, clock);
      PushBackCount(ws, spot.level, slot, key, fs, e);
      assert Insert(ws, id, n) == PushBack(ws, spot.level, slot, key);
      assert Table(Insert(ws, id, n), pending, clock, e) == WheelsCount(Insert(ws, id, n), fs, e);
    }
  }

  lemma InsertOk(ws: Wheels, id: TimerId, n: nat)
    requires WheelsOk(ws) && n > 0
    ensures WheelsOk(Insert(ws, id, n))
  {
    SpotExact(Heads(ws), n);
    var spot := FindSpot(Heads(ws), 0, n, 0);
    if spot.Spot? {
      PlacedKey(Heads(ws), id, n, spot);
      PushBackOk(ws, spot.level, GetSlot(spot.slots, spot.level), MakeKey(id, spot.slots));
    }
  }

  // ----- the cascade -----

  function PushFront(w: Wheel, slot: nat, key: Key): Wheel
    requires slot < |w.slots|
  {
    w.(slots := w.slots[slot := [key] + w.slots[slot]])
  }

  ghost predicate Spillable(keys: seq<Key>, level: nat)
    requires level < LEVELS
  {
    forall k, j :: k in keys && 0 <= j <= level ==> GetSlot(k, j) < SIZE
  }

  /** Moving a list of keys, front first, to the slots of a lower wheel. */
  function Spill(w: Wheel, keys: seq<Key>, level: nat): (w': Wheel)
    requires level < LEVELS && |w.slots| == SIZE && Spillable(keys, level)
    ensures |w'.slots| == SIZE && w'.head == w.head
    decreases |keys|
  {
    if keys == [] then w
    else
      assert keys[0] in keys;
      Spill(PushFront(w, GetSlot(keys[0], level), keys[0]), keys[1..], level)
  }

  lemma {:induction false} SpillCount(w: Wheel, keys: seq<Key>, level: nat, f: Key -> Entry, e: Entry)
    requires level < LEVELS && |w.slots| == SIZE && Spillable(keys, level)
    ensures SlotsCount(Spill(w, keys, level).slots, f, e) == SlotsCount(w.slots, f, e) + Count(keys, f, e)
    decreases |keys|
  {
    if keys != [] {
      assert keys[0] in keys;
      var slot := GetSlot(keys[0], level);
      var longer := [keys[0]] + w.slots[slot];
      SlotsCountUpdate(w.slots, slot, longer, f, e);
      assert longer[1..] == w.slots[slot];
      SpillCount(PushFront(w, slot, keys[0]), keys[1..], level, f, e);
    }
  }

  lemma {:induction false} SpillOk(w: Wheel, keys: seq<Key>, level: nat)
    requires level < LEVELS && WheelOk(w, level) && w.head == 0 && Spillable(keys, level)
    ensures WheelOk(Spill(w, keys, level), level)
    decreases |keys|
  {
    if keys != [] {
      assert keys[0] in keys;
      SpillOk(PushFront(w, GetSlot(keys[0], level), keys[0]), keys[1..], level);
    }
  }

  lemma FrontSpillable(ws: Wheels, i: nat)
    requires WheelsOk(ws) && i + 1 < LEVELS
    ensures Spillable(ws[i + 1].slots[ws[i + 1].head], i)
  {}

  /** Emptying the front slot of wheel `i + 1` into wheel `i` and advancing the head of wheel `i + 1`. */
  function CascadeStep(ws: Wheels, i: nat): (ws': Wheels)
    requires WheelsOk(ws) && i + 1 < LEVELS
    ensures Shaped(ws')
  {
    var w := ws[i + 1];
    ws[i := Spill(ws[i], w.slots[w.head], i)]
      [i + 1 := Wheel(w.slots[w.head := []], (w.head + 1) % SIZE)]
  }

  lemma CascadeStepOk(ws: Wheels, i: nat)
    requires WheelsOk(ws) && i + 1 < LEVELS && ws[i].head == 0
    ensures WheelsOk(CascadeStep(ws, i))
  {
    var w := ws[i + 1];
    SpillOk(ws[i], w.slots[w.head], i);
    var ws' := CascadeStep(ws, i);
    assert WheelOk(ws'[i + 1], i + 1);
    assert forall l :: 0 <= l < LEVELS && l != i && l != i + 1 ==> ws'[l] == ws[l];
  }

  /** The wheel whose head still has to advance when the cascade loop looks at wheel `i`. */
  function Pending(ws: Wheels, i: nat): (p: nat)
    requires |ws| == LEVELS && i < LEVELS
    ensures p <= LEVELS
  {
    if ws[i].head == 0 then i + 1 else LEVELS
  }

  /** Advancing a head moves the origin of no wheel, except that of a wheel which just wrapped (and is empty). */
  lemma OriginsKept(heads: seq<nat>, heads': seq<nat>, p: nat, clock: int)
    requires ValidHeads(heads) && ValidHeads(heads') && 0 < p < LEVELS
    requires forall l :: 0 <= l < LEVELS && l != p ==> heads'[l] == heads[l]
    requires heads'[p] == (heads[p] + 1) % SIZE
    ensures var p' := if heads'[p] == 0 then p + 1 else LEVELS;
            && (forall l :: 0 <= l < LEVELS && (l != p || heads'[p] != 0) ==>
                  Origin(heads', p', clock, l) == Origin(heads, p, clock, l))
            && (Base(heads', 3) + Lag(p', 3) == Base(heads, 3) + Lag(p, 3)
                || (p == 3 && heads'[3] == 0 && Base(heads', 3) + Lag(p', 3) + Weight(4) == Base(heads, 3) + Lag(p, 3)))
  {
    if p == 1 {} else if p == 2 {} else {}
  }

  /** The keys of the front slot of wheel `i + 1` stand for the same pairs on wheel `i`. */
  lemma KeysMove(keys: seq<Key>, heads: seq<nat>, i: nat, clock: int, e: Entry)
    requires ValidHeads(heads) && i + 1 < LEVELS
    requires forall k :: k in keys ==> GetSlot(k, i + 1) == heads[i + 1]
    ensures Count(keys, DueAt(i + 1, Origin(heads, i + 1, clock, i + 1)), e)
         == Count(keys, DueAt(i, Origin(heads, i + 1, clock, i)), e)
  {
    var f, g := DueAt(i + 1, Origin(heads, i + 1, clock, i + 1)), DueAt(i, Origin(heads, i + 1, clock, i));
    forall k | k in keys ensures f(k) == g(k) {
      if i == 0 {} else if i == 1 {} else {}
    }
    CountSame(keys, f, g, e);
  }

  /** The pairs that a cascade step moves. */
  function Moved(ws: Wheels, i: nat, clock: int, e: Entry): nat
    requires WheelsOk(ws) && i + 1 < LEVELS
  {
    Count(ws[i + 1].slots[ws[i + 1].head], DueAt(i, Origin(Heads(ws), i + 1, clock, i)), e)
  }

  lemma StepReceiver(ws: Wheels, i: nat, clock: int, e: Entry)
    requires WheelsOk(ws) && i + 1 < LEVELS && ws[i].head == 0
    ensures var f := DueAt(i, Origin(Heads(ws), i + 1, clock, i));
      SlotsCount(CascadeStep(ws, i)[i].slots, f, e) == SlotsCount(ws[i].slots, f, e) + Moved(ws, i, clock, e)
  {
    var w := ws[i + 1];
    SpillCount(ws[i], w.slots[w.head], i, DueAt(i, Origin(Heads(ws), i + 1, clock, i)), e);
  }

  lemma StepGiver(ws: Wheels, i: nat, clock: int, e: Entry)
    requires WheelsOk(ws) && i + 1 < LEVELS && ws[i].head == 0
    ensures var f := DueAt(i + 1, Origin(Heads(ws), i + 1, clock, i + 1));
      SlotsCount(CascadeStep(ws, i)[i + 1].slots, f, e) == SlotsCount(ws[i + 1].slots, f, e) - Moved(ws, i, clock, e)
  {
    var w := ws[i + 1];
    KeysMove(w.slots[w.head], Heads(ws), i, clock, e);
    SlotsCountUpdate(w.slots, w.head, [], DueAt(i + 1, Origin(Heads(ws), i + 1, clock, i + 1)), e);
  }

  lemma StepHeads(ws: Wheels, i: nat)
    requires WheelsOk(ws) && i + 1 < LEVELS && ws[i].head == 0
    ensures ValidHeads(Heads(ws)) && ValidHeads(Heads(CascadeStep(ws, i)))
    ensures Heads(CascadeStep(ws, i)) == Heads(ws)[i + 1 := (ws[i + 1].head + 1) % SIZE]
  {}

  /** The step leaves the reading of every key of wheel `l` as it was. */
  lemma StepReading(ws: Wheels, i: nat, l: nat, clock: int, e: Entry)
    requires WheelsOk(ws) && i + 1 < LEVELS && ws[i].head == 0 && l < LEVELS
    ensures var ws' := CascadeStep(ws, i);
      SlotsCount(ws'[l].slots, DueAt(l, Origin(Heads(ws'), Pending(ws', i + 1), clock, l)), e)
      == SlotsCount(ws'[l].slots, DueAt(l, Origin(Heads(ws), i + 1, clock, l)), e)
  {
    hide Base, Lag, Origin, Spill, SlotsCount, DigitSum, KeyOk;
    var ws' := CascadeStep(ws, i);
    StepHeads(ws, i);
    OriginsKept(Heads(ws), Heads(ws'), i + 1, clock);
    if l == i + 1 && ws'[l].head == 0 {
      SlotsCountEmpty(ws'[l].slots, DueAt(l, Origin(Heads(ws), i + 1, clock, l)), e);
      SlotsCountEmpty(ws'[l].slots, DueAt(l, Origin(Heads(ws'), Pending(ws', i + 1), clock, l)), e);
    }
  }

  /** A cascade step moves keys between wheels without adding, losing or rescheduling any. */
  lemma CascadeStepTable(ws: Wheels, i: nat, clock: int, e: Entry)
    requires WheelsOk(ws) && i + 1 < LEVELS && ws[i].head == 0
    ensures Table(CascadeStep(ws, i), Pending(CascadeStep(ws, i), i + 1), clock, e) == Table(ws, i + 1, clock, e)
  {
    hide WheelOk, Base, Lag, Origin, DueAt, SlotsCount, Moved, Spill;
    StepReceiver(ws, i, clock, e);
    StepGiver(ws, i, clock, e);
    StepReading(ws, i, 0, clock, e);
    StepReading(ws, i, 1, clock, e);
    StepReading(ws, i, 2, clock, e);
    StepReading(ws, i, 3, clock, e);
    if i == 0 {} else if i == 1 {} else {}
  }

  /** The cascade loop of `update` from wheel `i` on. */
  function Cascade(ws: Wheels, i: nat): Wheels
    requires WheelsOk(ws) && i < LEVELS
    decreases |ws| - i
  {
    if i + 1 == LEVELS || ws[i].head != 0 then ws
    else
      CascadeStepOk(ws, i);
      Cascade(CascadeStep(ws, i), i + 1)
  }

  lemma {:induction false} CascadeOk(ws: Wheels, i: nat)
    requires WheelsOk(ws) && i < LEVELS
    ensures WheelsOk(Cascade(ws, i))
    ensures forall l :: 0 <= l <= i ==> Cascade(ws, i)[l].head == ws[l].head
    decreases LEVELS - i
  {
    if i + 1 < LEVELS && ws[i].head == 0 {
      CascadeStepOk(ws, i);
      CascadeOk(CascadeStep(ws, i), i + 1);
    }
  }

  /** What the heads will read once the outstanding advance is carried out. */
  function Target(ws: Wheels, i: nat): int
    requires |ws| == LEVELS && i < LEVELS
  {
    (Base(Heads(ws), 3) + Lag(Pending(ws, i), 3)) % Weight(4)
  }

  lemma StepTarget(ws: Wheels, i: nat)
    requires WheelsOk(ws) && i + 1 < LEVELS && ws[i].head == 0
    ensures Target(CascadeStep(ws, i), i + 1) == Target(ws, i)
  {
    hide Base, Lag, Spill, WheelOk;
    var ws' := CascadeStep(ws, i);
    StepHeads(ws, i);
    OriginsKept(Heads(ws), Heads(ws'), i + 1, 0);
    SameRemainder(Base(Heads(ws'), 3) + Lag(Pending(ws', i + 1), 3), Base(Heads(ws), 3) + Lag(i + 1, 3));
  }

  lemma SameRemainder(x: int, y: int)
    requires x == y || x + Weight(4) == y
    ensures x % Weight(4) == y % Weight(4)
  {}

  lemma SettledTarget(ws: Wheels, i: nat)
    requires WheelsOk(ws) && i < LEVELS && (i + 1 == LEVELS || ws[i].head != 0)
    ensures Target(ws, i) == Base(Heads(ws), 3)
  {
    assert 0 <= Base(Heads(ws), 3) < Weight(4);
  }

  /** The cascade catches up on the reading of the heads. */
  lemma {:induction false} CascadeReading(ws: Wheels, i: nat)
    requires WheelsOk(ws) && i < LEVELS
    ensures WheelsOk(Cascade(ws, i))
    ensures Base(Heads(Cascade(ws, i)), 3) == Target(ws, i)
    decreases LEVELS - i
  {
    if i + 1 < LEVELS && ws[i].head == 0 {
      CascadeStepOk(ws, i);
      StepTarget(ws, i);
      CascadeReading(CascadeStep(ws, i), i + 1);
    } else {
      SettledTarget(ws, i);
    }
  }

  /** The whole cascade conserves every pair, however many wheels wrap together. */
  lemma {:induction false} CascadeTable(ws: Wheels, i: nat, clock: int, e: Entry)
    requires WheelsOk(ws) && i < LEVELS
    ensures WheelsOk(Cascade(ws, i))
    ensures Table(Cascade(ws, i), LEVELS, clock, e) == Table(ws, Pending(ws, i), clock, e)
    decreases LEVELS - i
  {
    CascadeOk(ws, i);
    if i + 1 < LEVELS && ws[i].head == 0 {
      CascadeStepOk(ws, i);
      CascadeStepTable(ws, i, clock, e);
      CascadeTable(CascadeStep(ws, i), i + 1, clock, e);
    }
  }
}
