/** One tick of the wheels: the front slot of wheel 0 is drained while the cascade is still outstanding, so
    insertions made during the drain may meet a stale head of wheel 1. */
module WheelTick {
  import opened Wheels
  import opened WheelTable

  /** `wheels[0].pop_front()`. */
  function Pop(ws: Wheels): Wheels
    requires Shaped(ws)
  {
    ws[0 := ws[0].(head := (ws[0].head + 1) % SIZE)]
  }

  function SetFront(ws: Wheels, d: nat, keys: seq<Key>): (ws': Wheels)
    requires Shaped(ws) && d < SIZE
    ensures Shaped(ws') && Heads(ws') == Heads(ws)
  {
    ws[0 := ws[0].(slots := ws[0].slots[d := keys])]
  }

  lemma SetFrontTwice(ws: Wheels, d: nat, a: seq<Key>, b: seq<Key>)
    requires Shaped(ws) && d < SIZE
    ensures SetFront(SetFront(ws, d, a), d, b) == SetFront(ws, d, b)
  {
    assert ws[0].slots[d := a][d := b] == ws[0].slots[d := b];
  }

  lemma SetFrontSame(ws: Wheels, d: nat)
    requires Shaped(ws) && d < SIZE
    ensures SetFront(ws, d, ws[0].slots[d]) == ws
  {
    assert ws[0].slots[d := ws[0].slots[d]] == ws[0].slots;
  }

  /** State while slot `d` of wheel 0 is being drained: all is in order except for the keys of that slot. */
  ghost predicate DrainOk(ws: Wheels, d: nat) {
    && Shaped(ws) && d < SIZE
    && ws[0].head == (d + 1) % SIZE
    && WheelsOk(SetFront(ws, d, []))
    && forall k :: k in ws[0].slots[d] ==> GetSlot(k, 0) == d
  }

  /** The pairs in the wheels while slot `d` is being drained: its keys are due now, on tick `clock`. */
  function DrainTable(ws: Wheels, d: nat, clock: int, e: Entry): nat
    requires Shaped(ws) && d < SIZE
  {
    Table(SetFront(ws, d, []), Pending(ws, 0), clock, e) + Count(ws[0].slots[d], DueAt(0, clock - d), e)
  }

  lemma PopOk(ws: Wheels)
    requires WheelsOk(ws)
    ensures DrainOk(Pop(ws), ws[0].head)
  {
    var d := ws[0].head;
    var rest := SetFront(Pop(ws), d, []);
    assert WheelOk(rest[0], 0);
    assert forall l :: 0 < l < LEVELS ==> rest[l] == ws[l];
  }

  lemma PopOrigins(heads: seq<nat>, heads': seq<nat>, clock: int, l: nat)
    requires ValidHeads(heads) && ValidHeads(heads') && l < LEVELS
    requires heads' == heads[0 := (heads[0] + 1) % SIZE]
    requires l > 0 || heads'[0] > 0
    ensures var p := if heads'[0] == 0 then 1 else LEVELS;
            Origin(heads', p, clock + 1, l) == Origin(heads, LEVELS, clock, l)
  {
    if l == 0 {} else if l == 1 {} else if l == 2 {} else {}
  }

  /** Starting a tick changes no pair: the keys of the front slot are those due on the new tick. */
  lemma PopTable(ws: Wheels, clock: int, e: Entry)
    requires WheelsOk(ws)
    ensures DrainTable(Pop(ws), ws[0].head, clock + 1, e) == Table(ws, LEVELS, clock, e)
  {
    var d := ws[0].head;
    var ws' := Pop(ws);
    var rest := SetFront(ws', d, []);
    var heads, heads', p := Heads(ws), Heads(ws'), Pending(ws', 0);
    assert heads' == heads[0 := (heads[0] + 1) % SIZE];
    var f := DueAt(0, clock + 1 - d);
    assert Dues(heads, LEVELS, clock)[0] == f;
    SlotsCountUpdate(ws[0].slots, d, [], f, e);
    if heads'[0] == 0 {
      SlotsCountEmpty(rest[0].slots, f, e);
      SlotsCountEmpty(rest[0].slots, Dues(heads', p, clock + 1)[0], e);
    } else {
      PopOrigins(heads, heads', clock, 0);
    }
    PopOrigins(heads, heads', clock, 1);
    PopOrigins(heads, heads', clock, 2);
    PopOrigins(heads, heads', clock, 3);
    assert forall l :: 0 < l < LEVELS ==> rest[l].slots == ws[l].slots;
  }

  /** Taking the front key of the drained slot removes one pair that is due now. */
  lemma TakeFront(ws: Wheels, d: nat, clock: int, e: Entry)
    requires DrainOk(ws, d) && ws[0].slots[d] != []
    ensures var keys := ws[0].slots[d];
      && DrainOk(SetFront(ws, d, keys[1..]), d)
      && DrainTable(SetFront(ws, d, keys[1..]), d, clock, e)
      == DrainTable(ws, d, clock, e) - if e == (KeyId(keys[0]), clock) then 1 else 0
  {
    var keys := ws[0].slots[d];
    var ws' := SetFront(ws, d, keys[1..]);
    SetFrontTwice(ws, d, keys[1..], []);
    assert keys[0] in keys;
    assert DueAt(0, clock - d)(keys[0]) == (KeyId(keys[0]), clock);
  }

  /** Ticks until a timer armed for `n` ticks during the drain comes due. On a tick that wraps wheel 0 the head of
      wheel 1 is one slot stale, which takes 255 ticks off every delay that does not fit wheel 0. */
  function DrainDelay(wrapped: bool, n: nat): nat {
    if wrapped && n >= SIZE then n - SIZE else n
  }

  lemma FrontCommutes(ws: Wheels, d: nat, level: nat, slot: nat, key: Key)
    requires Shaped(ws) && d < SIZE && level < LEVELS && slot < SIZE && (level == 0 ==> slot != d)
    ensures var ws' := PushBack(ws, level, slot, key);
      Shaped(ws') && SetFront(ws', d, []) == PushBack(SetFront(ws, d, []), level, slot, key)
  {
    if level == 0 {
      var keys := ws[0].slots[slot] + [key];
      assert ws[0].slots[slot := keys][d := []] == ws[0].slots[d := []][slot := keys];
    }
  }

  lemma DrainInsertElsewhere(ws: Wheels, d: nat, id: TimerId, n: nat)
    requires DrainOk(ws, d) && n > 0
    requires !(ws[0].head == 0 && n == SIZE)
    ensures SetFront(Insert(ws, id, n), d, []) == Insert(SetFront(ws, d, []), id, n)
    ensures Insert(ws, id, n)[0].slots[d] == ws[0].slots[d]
  {
    SpotExact(Heads(ws), n);
    var rest := SetFront(ws, d, []);
    var spot := FindSpot(Heads(ws), 0, n, 0);
    if spot.Spot? {
      var slot, key := GetSlot(spot.slots, spot.level), MakeKey(id, spot.slots);
      assert spot.level == 0 ==> slot == n - 1 + ws[0].head && slot != d;
      FrontCommutes(ws, d, spot.level, slot, key);
    }
  }

  /** A delay of exactly 255 ticks on a wrapping tick joins the very list that is being drained. */
  lemma DrainInsertHere(ws: Wheels, d: nat, id: TimerId) returns (key: Key)
    requires DrainOk(ws, d) && ws[0].head == 0
    ensures SIZE - 1 + Base(Heads(ws), 3) < CAPACITY
    ensures KeyId(key) == id && GetSlot(key, 0) == d
    ensures Insert(ws, id, SIZE) == SetFront(ws, d, ws[0].slots[d] + [key])
  {
    SpotExact(Heads(ws), SIZE);
    var spot := FindSpot(Heads(ws), 0, SIZE, 0);
    assert SIZE - 1 + Base(Heads(ws), 3) < CAPACITY;
    key := MakeKey(id, spot.slots);
    KeyFields(id, spot.slots);
  }

  /** What arming a timer for `n` ticks during the drain adds to the table: one pair with the delay above, if the
      top wheel can hold it. */
  function AddedNow(heads: seq<nat>, id: TimerId, n: nat, clock: int, e: Entry): nat
    requires |heads| == LEVELS && n > 0
  {
    if n - 1 + Base(heads, 3) < CAPACITY && e == (id, clock + DrainDelay(heads[0] == 0, n)) then 1 else 0
  }

  lemma DrainInsertSame(ws: Wheels, d: nat, id: TimerId, clock: int, e: Entry)
    requires DrainOk(ws, d) && ws[0].head == 0
    ensures DrainOk(Insert(ws, id, SIZE), d)
    ensures |Insert(ws, id, SIZE)[0].slots[d]| == |ws[0].slots[d]| + 1
    ensures DrainTable(Insert(ws, id, SIZE), d, clock, e)
         == DrainTable(ws, d, clock, e) + AddedNow(Heads(ws), id, SIZE, clock, e)
  {
    var key := DrainInsertHere(ws, d, id);
    SetFrontTwice(ws, d, ws[0].slots[d] + [key], []);
    CountAppend(ws[0].slots[d], key, DueAt(0, clock - d), e);
    assert DueAt(0, clock - d)(key) == (id, clock);
  }

  lemma DrainInsertOther(ws: Wheels, d: nat, id: TimerId, n: nat)
    requires DrainOk(ws, d) && n > 0 && !(ws[0].head == 0 && n == SIZE)
    ensures DrainOk(Insert(ws, id, n), d)
    ensures Insert(ws, id, n)[0].slots[d] == ws[0].slots[d]
  {
    DrainInsertElsewhere(ws, d, id, n);
    InsertOk(SetFront(ws, d, []), id, n);
  }

  lemma AddedDraining(heads: seq<nat>, id: TimerId, n: nat, clock: int, e: Entry)
    requires ValidHeads(heads) && n > 0 && !(heads[0] == 0 && n == SIZE)
    ensures Added(heads, id, n, if heads[0] == 0 then 1 else LEVELS, clock, e) == AddedNow(heads, id, n, clock, e)
  {
    SpotExact(heads, n);
  }

  lemma AddedBetween(heads: seq<nat>, id: TimerId, n: nat, clock: int, e: Entry)
    requires ValidHeads(heads) && n > 0
    ensures Added(heads, id, n, LEVELS, clock, e)
         == if n - 1 + Base(heads, 3) < CAPACITY && e == (id, clock + n) then 1 else 0
  {
    SpotExact(heads, n);
  }

  lemma DrainTableOther(ws: Wheels, ws': Wheels, d: nat, clock: int, e: Entry)
    requires Shaped(ws) && Shaped(ws') && d < SIZE && Heads(ws') == Heads(ws) && ws'[0].slots[d] == ws[0].slots[d]
    ensures DrainTable(ws', d, clock, e) - DrainTable(ws, d, clock, e)
         == Table(SetFront(ws', d, []), Pending(ws, 0), clock, e) - Table(SetFront(ws, d, []), Pending(ws, 0), clock, e)
  {
    assert Heads(ws')[0] == Heads(ws)[0];
  }

  lemma DrainInsertOtherTable(ws: Wheels, d: nat, id: TimerId, n: nat, clock: int, e: Entry)
    requires DrainOk(ws, d) && n > 0 && !(ws[0].head == 0 && n == SIZE)
    ensures DrainTable(Insert(ws, id, n), d, clock, e)
         == DrainTable(ws, d, clock, e) + AddedNow(Heads(ws), id, n, clock, e)
  {
    var ws', rest := Insert(ws, id, n), SetFront(ws, d, []);
    DrainInsertElsewhere(ws, d, id, n);
    DrainTableOther(ws, ws', d, clock, e);
    InsertArmed(rest, id, n, clock, e);
    assert Heads(rest)[0] == Heads(ws)[0];
  }

  lemma DrainInsert(ws: Wheels, d: nat, id: TimerId, n: nat, clock: int, e: Entry)
    requires DrainOk(ws, d) && n > 0
    ensures DrainOk(Insert(ws, id, n), d)
    ensures |Insert(ws, id, n)[0].slots[d]|
         == |ws[0].slots[d]| + if ws[0].head == 0 && n == SIZE then 1 else 0
    ensures DrainTable(Insert(ws, id, n), d, clock, e)
         == DrainTable(ws, d, clock, e) + AddedNow(Heads(ws), id, n, clock, e)
  {
    if ws[0].head == 0 && n == SIZE {
      DrainInsertSame(ws, d, id, clock, e);
    } else {
      DrainInsertOther(ws, d, id, n);
      DrainInsertOtherTable(ws, d, id, n, clock, e);
    }
  }

  lemma InsertArmed(ws: Wheels, id: TimerId, n: nat, clock: int, e: Entry)
    requires WheelsOk(ws) && n > 0 && !(ws[0].head == 0 && n == SIZE)
    ensures Table(Insert(ws, id, n), Pending(ws, 0), clock, e)
         == Table(ws, Pending(ws, 0), clock, e) + AddedNow(Heads(ws), id, n, clock, e)
  {
    InsertTable(ws, id, n, Pending(ws, 0), clock, e);
    AddedDraining(Heads(ws), id, n, clock, e);
  }

  lemma {:induction false} NoneCounted(slots: seq<seq<Key>>, f: Key -> Entry, e: Entry)
    requires forall s, k :: 0 <= s < |slots| && k in slots[s] ==> f(k) != e
    ensures SlotsCount(slots, f, e) == 0
  {
    if slots != [] {
      NoneInList(slots[0], f, e);
      NoneCounted(slots[1..], f, e);
    }
  }

  lemma {:induction false} NoneInList(keys: seq<Key>, f: Key -> Entry, e: Entry)
    requires forall k :: k in keys ==> f(k) != e
    ensures Count(keys, f, e) == 0
  {
    if keys != [] {
      NoneInList(keys[1..], f, e);
    }
  }

  /** A key that does not lie behind its head is not yet due. */
  lemma KeyNotDue(heads: seq<nat>, p: nat, level: nat, key: Key, slot: nat)
    requires ValidHeads(heads) && level < LEVELS
    requires p == LEVELS || (p == 1 && heads[0] == 0)
    requires KeyOk(key, level, slot) && heads[level] <= slot
    ensures DigitSum(key, level) >= Base(heads, level) + Lag(p, level)
  {
    if level == 0 {} else if level == 1 {} else if level == 2 {} else {}
  }

  /** Once the drained slot is empty nothing in the wheels is due any more. */
  lemma NothingDue(ws: Wheels, p: nat, clock: int, e: Entry)
    requires WheelsOk(ws) && (p == LEVELS || p == Pending(ws, 0)) && e.1 <= clock
    ensures Table(ws, p, clock, e) == 0
  {
    var heads := Heads(ws);
    forall l: nat | l < LEVELS
      ensures SlotsCount(ws[l].slots, Dues(heads, p, clock)[l], e) == 0
    {
      var f := DueAt(l, Origin(heads, p, clock, l));
      forall s, k | 0 <= s < SIZE && k in ws[l].slots[s] ensures f(k) != e {
        KeyNotDue(heads, p, l, k, s);
      }
      NoneCounted(ws[l].slots, f, e);
    }
  }

  lemma DrainEnd(ws: Wheels, d: nat, clock: int, e: Entry)
    requires DrainOk(ws, d) && ws[0].slots[d] == []
    ensures WheelsOk(ws) && DrainTable(ws, d, clock, e) == Table(ws, Pending(ws, 0), clock, e)
  {
    SetFrontSame(ws, d);
  }

  /** What the heads read after `clock` ticks, and while tick `clock` is being drained. */
  function Reading(clock: int, draining: bool): int {
    if draining && clock % SIZE == 0 then (clock - SIZE) % Weight(4) else clock % Weight(4)
  }

  lemma PopReading(ws: Wheels, clock: int)
    requires Shaped(ws) && Base(Heads(ws), 3) == Reading(clock, false)
    ensures Base(Heads(Pop(ws)), 3) == Reading(clock + 1, true)
    ensures Pop(ws)[0].head == 0 <==> (clock + 1) % SIZE == 0
  {
    var higher := ws[1].head + 255 * ws[2].head + 65025 * ws[3].head;
    Advance(clock, clock / Weight(4), ws[0].head, higher);
  }

  lemma Advance(clock: int, q: int, low: nat, higher: nat)
    requires low < SIZE && higher < 16581375 && clock == Weight(4) * q + low + SIZE * higher
    ensures low == SIZE - 1 <==> (clock + 1) % SIZE == 0
    ensures if low == SIZE - 1 then (clock + 1 - SIZE) % Weight(4) == low + SIZE * higher - 254
            else (clock + 1) % Weight(4) == low + SIZE * higher + 1
  {}

  lemma DrainEndTarget(ws: Wheels, clock: int)
    requires WheelsOk(ws) && Base(Heads(ws), 3) == Reading(clock, true)
    requires ws[0].head == 0 <==> clock % SIZE == 0
    ensures Target(ws, 0) == Reading(clock, false)
  {
    if ws[0].head == 0 {
      CatchUp(Base(Heads(ws), 3), clock - SIZE);
    } else {
      SettledTarget(ws, 0);
    }
  }

  lemma CatchUp(base: int, clock: int)
    requires base == clock % 4228250625
    ensures (base + 255) % 4228250625 == (clock + 255) % 4228250625
  {}

  lemma DrainEndReading(ws: Wheels, clock: int)
    requires WheelsOk(ws) && Base(Heads(ws), 3) == Reading(clock, true)
    requires ws[0].head == 0 <==> clock % SIZE == 0
    ensures WheelsOk(Cascade(ws, 0)) && Base(Heads(Cascade(ws, 0)), 3) == Reading(clock, false)
  {
    DrainEndTarget(ws, clock);
    CascadeReading(ws, 0);
  }
}
