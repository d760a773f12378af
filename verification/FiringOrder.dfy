/** The order in which timers that are due on the same tick are called. Keys are appended to their slot and move down a
    wheel from the front of one slot to the front of another, so each move turns their order round. */
module FiringOrder {
  import opened Wheels
  import opened WheelTable
  import opened WheelTick
  import opened FlatTimer
  import opened Refinement

  /** When a timer was armed, as the number of armings before, and the wheel its key was put on. */
  datatype Place = Place(at: nat, level: nat)

  /** The latest arming of every timer, how many there were, and how many before the current tick began. */
  datatype Places = Places(armed: map<TimerId, Place>, count: nat, since: nat)

  /** Two keys of a wheel's slot go the same way down the `l` wheels below. */
  ghost predicate Alike(a: Key, b: Key, l: nat) {
    forall j :: 0 <= j < l && j < LEVELS ==> GetSlot(a, j) == GetSlot(b, j)
  }

  /** The key of `a` rightly stands before that of `b` on wheel `l`: `a` was armed first exactly if the one armed later
      has come down an even number of wheels. */
  ghost predicate Before(armed: map<TimerId, Place>, a: TimerId, b: TimerId, l: nat) {
    && a in armed && b in armed && armed[a].at != armed[b].at
    && if armed[a].at < armed[b].at then (armed[b].level - l) % 2 == 0 else (armed[a].level - l) % 2 == 1
  }

  ghost predicate Line(keys: seq<Key>, armed: map<TimerId, Place>, l: nat) {
    && (forall k :: k in keys ==> KeyId(k) in armed)
    && forall p, q :: 0 <= p < q < |keys| && Alike(keys[p], keys[q], l) ==>
         Before(armed, KeyId(keys[p]), KeyId(keys[q]), l)
  }

  ghost predicate Lines(slots: seq<seq<Key>>, armed: map<TimerId, Place>, l: nat) {
    forall s :: 0 <= s < |slots| ==> Line(slots[s], armed, l)
  }

  ghost predicate Counted(pl: Places) {
    && pl.since <= pl.count
    && (forall x :: x in pl.armed ==> pl.armed[x].at < pl.count)
    && forall x, y :: x in pl.armed && y in pl.armed && x != y ==> pl.armed[x].at != pl.armed[y].at
  }

  /** On a tick that wraps wheel 0, all keys on it but those of the drained slot were put there in this tick, and the
      keys put on wheel 1 in this tick have not moved. */
  ghost predicate Recent(ws: Wheels, pl: Places, d: nat)
    requires |ws| == LEVELS
  {
    && (forall s, k :: 0 <= s < |ws[0].slots| && s != d && k in ws[0].slots[s] && KeyId(k) in pl.armed ==>
          pl.armed[KeyId(k)].at >= pl.since && pl.armed[KeyId(k)].level == 0)
    && (forall s, k :: 0 <= s < |ws[1].slots| && k in ws[1].slots[s] && KeyId(k) in pl.armed ==>
          pl.armed[KeyId(k)].at >= pl.since ==> pl.armed[KeyId(k)].level == 1)
  }

  ghost predicate LinesOk(ws: Wheels, pl: Places, p: Phase) {
    && |ws| == LEVELS && Counted(pl)
    && (forall l :: 0 <= l < LEVELS ==> Lines(ws[l].slots, pl.armed, l))
    && (p.Draining? && ws[0].head == 0 ==> Recent(ws, pl, p.slot))
  }

  // ----- whose keys are in the wheels -----

  lemma {:induction false} CountIn(keys: seq<Key>, f: Key -> Entry, key: Key)
    requires key in keys
    ensures Count(keys, f, f(key)) > 0
  {
    if keys[0] != key {
      CountIn(keys[1..], f, key);
    }
  }

  lemma {:induction false} SlotsCountIn(slots: seq<seq<Key>>, f: Key -> Entry, s: nat, key: Key)
    requires s < |slots| && key in slots[s]
    ensures SlotsCount(slots, f, f(key)) > 0
  {
    if s == 0 {
      CountIn(slots[0], f, key);
    } else {
      SlotsCountIn(slots[1..], f, s - 1, key);
    }
  }

  lemma KeyInTable(ws: Wheels, pending: nat, clock: int, l: nat, s: nat, key: Key)
    requires |ws| == LEVELS && pending <= LEVELS && l < LEVELS && s < |ws[l].slots| && key in ws[l].slots[s]
    ensures Table(ws, pending, clock, Dues(Heads(ws), pending, clock)[l](key)) > 0
    ensures Dues(Heads(ws), pending, clock)[l](key).0 == KeyId(key)
  {
    hide SlotsCount, DigitSum, Origin;
    var fs := Dues(Heads(ws), pending, clock);
    SlotsCountIn(ws[l].slots, fs[l], s, key);
  }

  /** A key in a wheel belongs to a pending timer. */
  lemma KeyIsDue(ws: Wheels, h: seq<Event>, p: Phase, l: nat, s: nat, key: Key)
    requires Refines(ws, h, p) && l < LEVELS && s < |ws[l].slots| && key in ws[l].slots[s]
    ensures KeyId(key) in State(h).due
  {
    hide State, Legal, Count, WheelsCount, DueAt, Table;
    var clock := State(h).clock;
    match p
    case Between =>
      KeyInTable(ws, LEVELS, clock, l, s, key);
      var e := Dues(Heads(ws), LEVELS, clock)[l](key);
      assert Keys(ws, p, clock, e) == Pair(State(h).due, e);
    case Draining(d) =>
      var rest := SetFront(ws, d, []);
      if l == 0 && s == d {
        var e := DueAt(0, clock - d)(key);
        CountIn(ws[0].slots[d], DueAt(0, clock - d), key);
        assert Keys(ws, p, clock, e) == Pair(State(h).due, e);
        ReadsId(key, clock - d);
      } else {
        assert key in rest[l].slots[s];
        KeyInTable(rest, Pending(ws, 0), clock, l, s, key);
        var e := Dues(Heads(rest), Pending(ws, 0), clock)[l](key);
        assert Keys(ws, p, clock, e) == Pair(State(h).due, e);
      }
  }

  lemma ReadsId(key: Key, origin: int)
    ensures DueAt(0, origin)(key).0 == KeyId(key)
  {}

  // ----- arming -----

  /** The timer `id` is armed on wheel `level`. */
  function Noted(pl: Places, id: TimerId, level: nat): Places {
    pl.(armed := pl.armed[id := Place(pl.count, level)], count := pl.count + 1)
  }

  lemma NotedLine(keys: seq<Key>, pl: Places, l: nat, id: TimerId, level: nat)
    requires Line(keys, pl.armed, l) && forall k :: k in keys ==> KeyId(k) != id
    ensures Line(keys, Noted(pl, id, level).armed, l)
  {}

  lemma AppendedLine(keys: seq<Key>, pl: Places, l: nat, key: Key)
    requires Counted(pl) && Line(keys, pl.armed, l) && forall k :: k in keys ==> KeyId(k) != KeyId(key)
    ensures Line(keys + [key], Noted(pl, KeyId(key), l).armed, l)
  {
    NotedLine(keys, pl, l, KeyId(key), l);
  }

  /** The wheel that an insertion puts a key on; a lost one is on none. */
  function PlacedOn(heads: seq<nat>, n: nat): nat
    requires |heads| == LEVELS && n > 0
  {
    match FindSpot(heads, 0, n, 0)
    case Lost => LEVELS
    case Spot(level, _) => level
  }

  /** The digits that the heads show. */
  function HeadsAt(reading: nat): seq<nat> {
    [reading % SIZE, reading / 255 % SIZE, reading / 65025 % SIZE, reading / 16581375 % SIZE]
  }

  lemma HeadsShow(heads: seq<nat>)
    requires ValidHeads(heads)
    ensures Base(heads, 3) >= 0 && HeadsAt(Base(heads, 3)) == heads
  {
    var r := Base(heads, 3);
    assert r / 255 == heads[1] + 255 * heads[2] + 65025 * heads[3];
    assert r / 65025 == heads[2] + 255 * heads[3];
    assert r / 16581375 == heads[3];
  }

  /** All that happened to the timers, as far as their places go. */
  ghost function PlacesOf(h: seq<Event>): Places {
    if h == [] then Places(map[], 0, 0)
    else
      var before, pl := h[..|h| - 1], PlacesOf(h[..|h| - 1]);
      match h[|h| - 1]
      case Armed(id, n) =>
        var f := State(before);
        if n > 0 then Noted(pl, id, PlacedOn(HeadsAt(Reading(f.clock, f.draining)), n)) else pl
      case TickBegan => pl.(since := pl.count)
      case _ => pl
  }

  lemma PlacesExtend(h: seq<Event>, e: Event)
    ensures e == TickBegan ==> PlacesOf(h + [e]) == PlacesOf(h).(since := PlacesOf(h).count)
    ensures e.Fired? || e.TickEnded? ==> PlacesOf(h + [e]) == PlacesOf(h)
  {
    assert (h + [e])[..|h|] == h;
  }

  lemma PlacesArmed(ws: Wheels, h: seq<Event>, p: Phase, id: TimerId, n: nat)
    requires Refines(ws, h, p) && n > 0 && Shaped(ws)
    ensures PlacesOf(h + [Armed(id, n)]) == Noted(PlacesOf(h), id, PlacedOn(Heads(ws), n))
  {
    assert (h + [Armed(id, n)])[..|h|] == h;
    HeadsShow(Heads(ws));
  }

  lemma NotedLines(slots: seq<seq<Key>>, pl: Places, l: nat, id: TimerId, level: nat)
    requires Lines(slots, pl.armed, l) && forall s, k :: 0 <= s < |slots| && k in slots[s] ==> KeyId(k) != id
    ensures Lines(slots, Noted(pl, id, level).armed, l)
  {
    hide Line;
    forall s | 0 <= s < |slots| ensures Line(slots[s], Noted(pl, id, level).armed, l) {
      NotedLine(slots[s], pl, l, id, level);
    }
  }

  ghost predicate Absent(ws: Wheels, id: TimerId) {
    forall l, s, k :: 0 <= l < |ws| && 0 <= s < |ws[l].slots| && k in ws[l].slots[s] ==> KeyId(k) != id
  }

  lemma FreeIsAbsent(ws: Wheels, h: seq<Event>, p: Phase, id: TimerId)
    requires Refines(ws, h, p) && id !in State(h).due
    ensures Absent(ws, id)
  {
    hide Refines, State;
    forall l, s, k | 0 <= l < |ws| && 0 <= s < |ws[l].slots| && k in ws[l].slots[s] ensures KeyId(k) != id {
      FourWheels(ws, h, p);
      KeyIsDue(ws, h, p, l, s, k);
    }
  }

  lemma FourWheels(ws: Wheels, h: seq<Event>, p: Phase)
    requires Refines(ws, h, p)
    ensures Shaped(ws)
  {}

  lemma PushedLines(ws: Wheels, pl: Places, level: nat, slot: nat, key: Key)
    requires Shaped(ws) && Counted(pl) && level < LEVELS && slot < SIZE && Absent(ws, KeyId(key))
    requires forall l :: 0 <= l < LEVELS ==> Lines(ws[l].slots, pl.armed, l)
    ensures var ws' := PushBack(ws, level, slot, key);
      forall l :: 0 <= l < LEVELS ==> Lines(ws'[l].slots, Noted(pl, KeyId(key), level).armed, l)
  {
    hide Line, Counted;
    var ws' := PushBack(ws, level, slot, key);
    forall l | 0 <= l < LEVELS ensures Lines(ws'[l].slots, Noted(pl, KeyId(key), level).armed, l) {
      NotedLines(ws[l].slots, pl, l, KeyId(key), level);
      if l == level {
        AppendedLine(ws[l].slots[slot], pl, l, key);
      }
    }
  }

  lemma NotedCounted(pl: Places, id: TimerId, level: nat)
    requires Counted(pl)
    ensures Counted(Noted(pl, id, level))
  {}

  lemma LostLines(ws: Wheels, pl: Places, p: Phase, id: TimerId)
    requires LinesOk(ws, pl, p) && Absent(ws, id)
    ensures LinesOk(ws, Noted(pl, id, LEVELS), p)
  {
    NotedCounted(pl, id, LEVELS);
    hide Counted, Lines;
    forall l | 0 <= l < LEVELS ensures Lines(ws[l].slots, Noted(pl, id, LEVELS).armed, l) {
      NotedLines(ws[l].slots, pl, l, id, LEVELS);
    }
  }

  lemma PlacedLines(ws: Wheels, pl: Places, p: Phase, level: nat, slot: nat, key: Key)
    requires LinesOk(ws, pl, p) && Shaped(ws) && level < LEVELS && slot < SIZE && Absent(ws, KeyId(key))
    ensures LinesOk(PushBack(ws, level, slot, key), Noted(pl, KeyId(key), level), p)
  {
    PushedLines(ws, pl, level, slot, key);
    NotedCounted(pl, KeyId(key), level);
    if p.Draining? && ws[0].head == 0 {
      PlacedRecent(ws, pl, p.slot, level, slot, key);
    }
    hide Counted, Lines, Recent;
  }

  lemma PlacedRecent(ws: Wheels, pl: Places, d: nat, level: nat, slot: nat, key: Key)
    requires Shaped(ws) && Recent(ws, pl, d) && level < LEVELS && slot < SIZE && Absent(ws, KeyId(key))
    requires Counted(pl)
    ensures Recent(PushBack(ws, level, slot, key), Noted(pl, KeyId(key), level), d)
  {}

  /** An insertion keeps all lines in order: whoever is armed last is last in its line. */
  lemma InsertLines(ws: Wheels, h: seq<Event>, pl: Places, p: Phase, id: TimerId, n: nat)
    requires LinesOk(ws, pl, p) && Refines(ws, h, p) && id !in State(h).due && n > 0 && Shaped(ws)
    ensures LinesOk(Insert(ws, id, n), Noted(pl, id, PlacedOn(Heads(ws), n)), p)
  {
    hide Refines, State, LinesOk, FindSpot, Noted, MakeKey, KeyId, GetSlot;
    FreeIsAbsent(ws, h, p, id);
    SpotExact(Heads(ws), n);
    match FindSpot(Heads(ws), 0, n, 0) {
      case Lost =>
        LostLines(ws, pl, p, id);
      case Spot(level, slots) =>
        KeyFields(id, slots);
        SlotInRange(slots, level, n, Heads(ws));
        PlacedLines(ws, pl, p, level, GetSlot(slots, level), MakeKey(id, slots));
    }
  }

  lemma SlotInRange(slots: nat, level: nat, n: nat, heads: seq<nat>)
    requires ValidHeads(heads) && n > 0 && FindSpot(heads, 0, n, 0) == Spot(level, slots)
    ensures level < LEVELS && slots < 0x1_0000_0000 && GetSlot(slots, level) < SIZE
  {
    SpotExact(heads, n);
  }

  // ----- a tick -----

  /** The front key of the drained slot is taken. */
  lemma TakeLines(ws: Wheels, pl: Places, d: nat)
    requires LinesOk(ws, pl, Draining(d)) && Shaped(ws) && d < SIZE && ws[0].slots[d] != []
    ensures LinesOk(SetFront(ws, d, ws[0].slots[d][1..]), pl, Draining(d))
  {
    hide Before, Alike;
    var keys := ws[0].slots[d];
    assert Line(keys, pl.armed, 0);
    assert Line(keys[1..], pl.armed, 0);
    var ws' := SetFront(ws, d, keys[1..]);
    forall l | 0 <= l < LEVELS ensures Lines(ws'[l].slots, pl.armed, l) {}
  }

  lemma PopLines(ws: Wheels, pl: Places)
    requires LinesOk(ws, pl, Between) && WheelsOk(ws)
    ensures LinesOk(Pop(ws), pl.(since := pl.count), Draining(ws[0].head))
  {
    hide Line, KeyOk;
    assert WheelOk(ws[0], 0);
  }

  // ----- the cascade -----

  /** Moving down a wheel turns the order round, and the parity with it. */
  lemma TurnedRound(armed: map<TimerId, Place>, a: TimerId, b: TimerId, l: nat)
    requires Before(armed, a, b, l + 1)
    ensures Before(armed, b, a, l)
  {}

  /** The keys that are moved may stand before those already there. */
  ghost predicate MayPass(slots: seq<seq<Key>>, keys: seq<Key>, armed: map<TimerId, Place>, l: nat)
    requires l < LEVELS
  {
    forall a, s, b :: a in keys && 0 <= s < |slots| && s == GetSlot(a, l) && b in slots[s] && Alike(a, b, l) ==>
      Before(armed, KeyId(a), KeyId(b), l)
  }

  lemma FrontLine(key: Key, line: seq<Key>, armed: map<TimerId, Place>, l: nat)
    requires Line(line, armed, l) && KeyId(key) in armed
    requires forall b :: b in line && Alike(key, b, l) ==> Before(armed, KeyId(key), KeyId(b), l)
    ensures Line([key] + line, armed, l)
  {
    hide Before, Alike;
    var keys := [key] + line;
    forall p, q | 0 <= p < q < |keys| && Alike(keys[p], keys[q], l)
      ensures Before(armed, KeyId(keys[p]), KeyId(keys[q]), l)
    {
      if p == 0 {
        assert keys[q] in line;
      }
    }
  }

  lemma NextMayPass(slots: seq<seq<Key>>, keys: seq<Key>, armed: map<TimerId, Place>, l: nat)
    requires l < LEVELS && |slots| == SIZE && keys != [] && GetSlot(keys[0], l) < SIZE
    requires MayPass(slots, keys, armed, l) && Line(keys, armed, l + 1)
    ensures var slot := GetSlot(keys[0], l);
            MayPass(slots[slot := [keys[0]] + slots[slot]], keys[1..], armed, l)
  {
    hide Before;
    var slot := GetSlot(keys[0], l);
    var slots' := slots[slot := [keys[0]] + slots[slot]];
    forall a, s, b | a in keys[1..] && 0 <= s < |slots'| && s == GetSlot(a, l) && b in slots'[s] && Alike(a, b, l)
      ensures Before(armed, KeyId(a), KeyId(b), l)
    {
      if b in slots[s] {
        assert a in keys;
      } else {
        var q :| 0 < q < |keys| && keys[q] == a;
        assert b == keys[0] && s == slot && Alike(keys[0], keys[q], l + 1);
        TurnedRound(armed, KeyId(b), KeyId(a), l);
      }
    }
  }

  /** Keys that are moved to the wheel below stand there in the opposite order, before those already there. */
  lemma {:induction false} SpillLines(w: Wheel, keys: seq<Key>, l: nat, armed: map<TimerId, Place>)
    requires l < LEVELS && |w.slots| == SIZE && Spillable(keys, l)
    requires Lines(w.slots, armed, l) && Line(keys, armed, l + 1) && MayPass(w.slots, keys, armed, l)
    ensures Lines(Spill(w, keys, l).slots, armed, l)
    decreases |keys|
  {
    hide Before, Alike;
    if keys != [] {
      var key, slot := keys[0], GetSlot(keys[0], l);
      assert key in keys;
      FrontLine(key, w.slots[slot], armed, l);
      NextMayPass(w.slots, keys, armed, l);
      assert Line(keys[1..], armed, l + 1);
      SpillLines(PushFront(w, slot, key), keys[1..], l, armed);
    }
  }

  function FrontKeys(ws: Wheels, i: nat): seq<Key>
    requires Shaped(ws) && i < LEVELS
  {
    ws[i].slots[ws[i].head]
  }

  ghost predicate AllLines(ws: Wheels, armed: map<TimerId, Place>) {
    |ws| == LEVELS && forall l :: 0 <= l < LEVELS ==> Lines(ws[l].slots, armed, l)
  }

  /** The first step of the cascade meets only keys of this tick on wheel 0. */
  lemma RecentMayPass(ws: Wheels, pl: Places, d: nat)
    requires WheelsOk(ws) && AllLines(ws, pl.armed) && Counted(pl) && Recent(ws, pl, d)
    requires d < SIZE && ws[0].slots[d] == []
    ensures MayPass(ws[0].slots, FrontKeys(ws, 1), pl.armed, 0)
  {
    hide KeyOk, Alike, GetSlot, KeyId;
    assert Line(FrontKeys(ws, 1), pl.armed, 1) && forall s :: 0 <= s < SIZE ==> Line(ws[0].slots[s], pl.armed, 0);
  }

  lemma StepLines(ws: Wheels, i: nat, armed: map<TimerId, Place>)
    requires WheelsOk(ws) && i + 1 < LEVELS && AllLines(ws, armed)
    requires MayPass(ws[i].slots, FrontKeys(ws, i + 1), armed, i)
    ensures AllLines(CascadeStep(ws, i), armed)
  {
    hide MayPass, Line, Spill, KeyOk;
    FrontSpillable(ws, i);
    assert Line(FrontKeys(ws, i + 1), armed, i + 1);
    SpillLines(ws[i], FrontKeys(ws, i + 1), i, armed);
    NoLine(armed, i + 1);
    var ws' := CascadeStep(ws, i);
    forall l | 0 <= l < LEVELS ensures Lines(ws'[l].slots, armed, l) {}
  }

  lemma NoLine(armed: map<TimerId, Place>, l: nat)
    ensures Line([], armed, l)
  {}

  /** A wheel that has just wrapped is empty. */
  lemma WrappedMayPass(ws: Wheels, i: nat, keys: seq<Key>, armed: map<TimerId, Place>)
    requires WheelsOk(ws) && i + 1 < LEVELS && CascadeStep(ws, i)[i + 1].head == 0
    ensures MayPass(CascadeStep(ws, i)[i + 1].slots, keys, armed, i + 1)
  {
    var w, slots := ws[i + 1], CascadeStep(ws, i)[i + 1].slots;
    assert WheelOk(w, i + 1) && slots == w.slots[w.head := []];
    assert forall s :: 0 <= s < SIZE ==> slots[s] == [];
  }

  lemma {:induction false} CascadeLines(ws: Wheels, i: nat, armed: map<TimerId, Place>)
    requires WheelsOk(ws) && i < LEVELS && AllLines(ws, armed)
    requires i + 1 < LEVELS && ws[i].head == 0 ==> MayPass(ws[i].slots, FrontKeys(ws, i + 1), armed, i)
    ensures AllLines(Cascade(ws, i), armed)
    decreases LEVELS - i
  {
    hide MayPass, AllLines, WheelOk;
    if i + 1 < LEVELS && ws[i].head == 0 {
      StepLines(ws, i, armed);
      CascadeStepOk(ws, i);
      if i + 2 < LEVELS && CascadeStep(ws, i)[i + 1].head == 0 {
        WrappedMayPass(ws, i, FrontKeys(CascadeStep(ws, i), i + 2), armed);
      }
      CascadeLines(CascadeStep(ws, i), i + 1, armed);
    }
  }

  /** The end of a tick keeps all lines in order, however many wheels wrap together. */
  lemma EndLines(ws: Wheels, pl: Places, d: nat)
    requires LinesOk(ws, pl, Draining(d)) && WheelsOk(ws) && d < SIZE && ws[0].slots[d] == []
    ensures LinesOk(Cascade(ws, 0), pl, Between)
  {
    hide Recent, Lines, Cascade;
    if ws[0].head == 0 {
      RecentMayPass(ws, pl, d);
    }
    CascadeLines(ws, 0, pl.armed);
  }

  /** Of the timers that the next tick drains, one stands before another exactly if it was armed first and the other
      was put on an even wheel then, or it was armed last and was put on an odd one. */
  lemma FrontInOrder(ws: Wheels, pl: Places, p: nat, q: nat)
    requires LinesOk(ws, pl, Between) && Shaped(ws) && p < q < |FrontKeys(ws, 0)|
    ensures var a, b := KeyId(FrontKeys(ws, 0)[p]), KeyId(FrontKeys(ws, 0)[q]);
      && a in pl.armed && b in pl.armed && pl.armed[a].at != pl.armed[b].at
      && if pl.armed[a].at < pl.armed[b].at then pl.armed[b].level % 2 == 0 else pl.armed[a].level % 2 == 1
  {
    assert Line(FrontKeys(ws, 0), pl.armed, 0);
    assert Alike(FrontKeys(ws, 0)[p], FrontKeys(ws, 0)[q], 0);
  }

  // ----- event by event -----

  /** The lines of all wheels are in order for what happened so far. */
  ghost predicate InLine(ws: Wheels, h: seq<Event>, p: Phase) {
    LinesOk(ws, PlacesOf(h), p)
  }

  lemma ArmInLine(ws: Wheels, h: seq<Event>, p: Phase, id: TimerId, n: nat)
    requires InLine(ws, h, p) && Refines(ws, h, p) && id !in State(h).due && n > 0 && Shaped(ws)
    ensures InLine(Insert(ws, id, n), h + [Armed(id, n)], p)
  {
    hide LinesOk, Refines, State, PlacesOf, PlacedOn;
    InsertLines(ws, h, PlacesOf(h), p, id, n);
    PlacesArmed(ws, h, p, id, n);
  }

  lemma TakeInLine(ws: Wheels, h: seq<Event>, d: nat, id: TimerId)
    requires InLine(ws, h, Draining(d)) && Shaped(ws) && d < SIZE && ws[0].slots[d] != []
    ensures InLine(SetFront(ws, d, ws[0].slots[d][1..]), h + [Fired(id)], Draining(d))
  {
    hide LinesOk, PlacesOf;
    TakeLines(ws, PlacesOf(h), d);
    PlacesExtend(h, Fired(id));
  }

  lemma BeginInLine(ws: Wheels, h: seq<Event>)
    requires InLine(ws, h, Between) && Refines(ws, h, Between)
    ensures Shaped(ws) && InLine(Pop(ws), h + [TickBegan], Draining(ws[0].head))
  {
    assert WheelsOk(ws);
    hide LinesOk, PlacesOf, Refines;
    PopLines(ws, PlacesOf(h));
    PlacesExtend(h, TickBegan);
  }

  lemma EndInLine(ws: Wheels, h: seq<Event>, d: nat)
    requires InLine(ws, h, Draining(d)) && WheelsOk(ws) && d < SIZE && ws[0].slots[d] == []
    ensures InLine(Cascade(ws, 0), h + [TickEnded], Between)
  {
    hide LinesOk, PlacesOf, Cascade;
    EndLines(ws, PlacesOf(h), d);
    PlacesExtend(h, TickEnded);
  }

  lemma EmptyInLine(ws: Wheels)
    requires ws == seq(LEVELS, _ => Wheel(seq(SIZE, _ => []), 0))
    ensures InLine(ws, [], Between)
  {}

  /** What a timer is noted with stays until it is armed again. */
  lemma {:induction false} PlaceStays(h: seq<Event>, more: seq<Event>, id: TimerId)
    requires id in PlacesOf(h).armed && forall e :: e in more && e.Armed? ==> e.id != id
    ensures id in PlacesOf(h + more).armed && PlacesOf(h + more).armed[id] == PlacesOf(h).armed[id]
    decreases |more|
  {
    if more == [] {
      assert h + more == h;
    } else {
      var n := |more| - 1;
      PlaceStays(h, more[..n], id);
      assert h + more == (h + more[..n]) + [more[n]];
      PlacesNext(h + more[..n], more[n], id);
    }
  }

  lemma PlacesNext(h: seq<Event>, e: Event, id: TimerId)
    requires id in PlacesOf(h).armed && (e.Armed? ==> e.id != id)
    ensures id in PlacesOf(h + [e]).armed && PlacesOf(h + [e]).armed[id] == PlacesOf(h).armed[id]
  {
    assert (h + [e])[..|h|] == h;
  }

  lemma OnWheelOne()
    ensures PlacesOf([Armed(1, 300), Armed(2, 300)]).armed == map[1 := Place(0, 1), 2 := Place(1, 1)]
  {
    var h1, h2 := [Armed(1, 300)], [Armed(1, 300), Armed(2, 300)];
    assert h1[..0] == [] && h2[..1] == h1;
    assert State(h1).clock == 0 && !State(h1).draining by {
      Extend([], Armed(1, 300));
      assert [] + [Armed(1, 300)] == h1;
    }
    FindSpotUnfolds([0, 0, 0, 0], 0, 300, 0);
    assert PlacedOn([0, 0, 0, 0], 300) == 1;
    assert PlacesOf(h1) == Noted(Places(map[], 0, 0), 1, 1);
  }

  /** Two timers of 300 ticks that are created first of all, one after the other, come to be called in the opposite
      order, whatever else is armed in the meantime. */
  lemma LastComesFirst(more: seq<Event>, ws: Wheels, p: nat, q: nat)
    requires forall e :: e in more && e.Armed? ==> e.id != 1 && e.id != 2
    requires InLine(ws, [Armed(1, 300), Armed(2, 300)] + more, Between) && Shaped(ws)
    requires p < |FrontKeys(ws, 0)| && q < |FrontKeys(ws, 0)|
    requires KeyId(FrontKeys(ws, 0)[p]) == 1 && KeyId(FrontKeys(ws, 0)[q]) == 2
    ensures q < p
  {
    hide PlacesOf;
    var h := [Armed(1, 300), Armed(2, 300)];
    OnWheelOne();
    PlaceStays(h, more, 1);
    PlaceStays(h, more, 2);
    if p < q {
      FrontInOrder(ws, PlacesOf(h + more), p, q);
    }
  }
}
