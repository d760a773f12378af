/** `worker_timer`: the wheels of `base_timer` together with the table of timers, driven by a clock and calling an
    arbitrary handler that may itself create and remove timers. */
module WorkerTimers {
  import opened Wheels
  import opened WheelTable
  import opened WheelTick
  import opened FlatTimer
  import opened Refinement
  import opened FiringOrder
  import opened TimerBook
  import opened Ledgers
  import opened DrainQueue
  import opened Requests
  import opened TimerIds

  class WorkerTimer {
    var stop: bool
    var tick: int
    var previousTick: int
    var wheels: Wheels
    var uuid: TimerId
    var timers: map<TimerId, Context>
    var registered: bool
    var handler: Handler

    /** Every call the handler has received. */
    var trace: seq<Call>

    /** What happened to the wheels; every timer ever created, and which of them is which in the table; every call with
        its tick. */
    ghost var history: seq<Event>
    ghost var current: map<TimerId, nat>
    ghost var lives: seq<Life>
    ghost var log: seq<Logged>

    /** Ticks dropped while stopped, and the first non-zero clock reading. */
    ghost var dropped: nat
    ghost var epoch: int

    ghost function Now(): Ledger
      reads this`timers, this`current, this`lives, this`log
    {
      Ledger(timers, current, lives, log)
    }

    ghost predicate Valid(p: Phase, hand: set<TimerId>)
      reads this`wheels, this`history, this`timers, this`current, this`lives, this`log, this`trace, this`registered
    {
      && |wheels| == LEVELS
      && Refines(wheels, history, p)
      && InLine(wheels, history, p)
      && Book(Now(), history, hand)
      && Mirrors(log, trace)
      && (forall id :: id in timers ==> registered)
    }

    ghost function Flat(): Flat
      reads this`history
    {
      State(history)
    }

    /** Every millisecond since the first reading is in a tick that was advanced, in one that was dropped, or still
        in `tick_`. */
    ghost predicate Accounted()
      reads this
    {
      PRECISION * (Flat().clock + dropped) + tick == if previousTick == 0 then 0 else previousTick - epoch
    }

    /** A tick that wraps wheel 0 is being drained. */
    ghost predicate Wrapped(p: Phase)
      reads this`registered, this`wheels
    {
      registered && p.Draining? && |wheels| == LEVELS && wheels[0].head == 0
    }

    constructor ()
      ensures Valid(Between, {}) && timers == map[] && trace == [] && history == [] && lives == [] && !registered
      ensures !stop && tick == 0 && previousTick == 0 && dropped == 0 && Accounted()
    {
      stop, tick, previousTick := false, 0, 0;
      wheels := seq(LEVELS, _ => Wheel(seq(SIZE, _ => []), 0));
      uuid, timers, registered := 0, map[], false;
      handler := _ => [];
      trace, history, current, lives, log, dropped, epoch := [], [], map[], [], [], 0, 0;
      new;
      EmptyRefines(wheels);
      EmptyInLine(wheels);
    }

    method SetOnTimer(v: Handler)
      modifies this`handler, this`registered
      ensures handler == v && registered
    {
      handler, registered := v, true;
    }

    /** The id search of `repeat` and `create_timerid`: the first id from `uuid_` on, cyclically, that is free. With all
        2^32 ids live the search does not end; it is cut off here after a whole turn, and `ok` is false. */
    method CreateTimerId() returns (id: TimerId, ok: bool)
      modifies this`uuid
      ensures ok <==> |timers| < ID_COUNT
      ensures var start := if old(uuid) == 0 || old(uuid) == MAX_TIMER_NUM then 1 else old(uuid);
        if ok then
          && id == uuid && id !in timers
          && exists j: nat :: id == Nth(start, j) && forall t: nat :: t < j ==> Nth(start, t) in timers
        else forall t: nat :: Nth(start, t) in timers
    {
      if uuid == 0 || uuid == MAX_TIMER_NUM {
        uuid := 1;
      }
      ghost var start := uuid;
      var j := 0;
      NthStep(start, 0);
      hide Nth, Visited;
      while uuid in timers && j < ID_COUNT
        invariant uuid == Nth(start, j) && Visited(start, j) <= timers.Keys && j <= ID_COUNT
        decreases ID_COUNT - j
      {
        NthStep(start, j);
        uuid := (uuid + 1) % ID_COUNT;
        j := j + 1;
      }
      id, ok := uuid, uuid !in timers;
      if ok {
        OneFree(timers.Keys, id);
        VisitedAll(start, j);
      } else {
        NoneFree(timers.Keys, start);
      }
    }

    /** The loop of `insert_timer` over the wheels. */
    method PlaceKey(n: nat, id: TimerId)
      requires Shaped(wheels) && n > 0
      modifies this`wheels
      ensures wheels == Insert(old(wheels), id, n)
    {
      var slotCount: nat, slots: nat, i: nat := n, 0, 0;
      ghost var heads, spot := Heads(wheels), FindSpot(Heads(wheels), 0, n, 0);
      while i < LEVELS
        invariant i <= LEVELS && slotCount > 0 && wheels == old(wheels)
        invariant i < LEVELS ==> slots < ShiftLeft(1, i)
        invariant FindSpot(heads, i, slotCount, slots) == spot
      {
        ghost var count, slots0 := slotCount, slots;
        assert heads[i] == wheels[i].head;
        slotCount := slotCount + wheels[i].head;
        ghost var total := slotCount;
        var slot := (slotCount - 1) % SIZE;
        slotCount := slotCount - slot;
        TopByte(slots, slot, i);
        slots := slots + ShiftLeft(slot, i);
        FindSpotRound(heads, i, count, slots0, spot, slots);
        var key := MakeKey(id, slots);
        if slotCount < SIZE {
          InsertPlaces(wheels, id, n, spot, slot);
          wheels := PushBack(wheels, i, slot, key);
          return;
        }
        slotCount := slotCount / SIZE;
        assert slotCount == Carry(total);
        i := i + 1;
      }
      InsertPlaces(wheels, id, n, spot, 0);
    }

    method InsertTimer(duration: Duration, id: TimerId, ghost p: Phase)
      requires duration >= 0
      requires Refines(wheels, history, p) && InLine(wheels, history, p) && id !in Flat().due
      modifies this`wheels, this`history
      ensures history == old(history) + [Armed(id, SlotCount(duration))]
      ensures |wheels| == LEVELS && Refines(wheels, history, p) && InLine(wheels, history, p)
      ensures OnlyArmed(old(wheels), old(history), wheels, history, p)
      ensures Queue(wheels, p) == old(Queue(wheels, p))
                + if p.Draining? && wheels[0].head == 0 && SlotCount(duration) == SIZE then [id] else []
    {
      RefinesShape(wheels, history, p);
      hide Refines, InLine, Insert, State, OnlyArmed, Queue;
      var diff: int := duration;
      if diff % PRECISION > 0 {
        diff := diff + PRECISION;
      }
      var slotCount := diff / PRECISION;
      slotCount := if slotCount > 0 then slotCount else 1;
      assert slotCount == SlotCount(duration);
      ArmRefines(wheels, history, p, id, slotCount);
      ArmInLine(wheels, history, p, id, slotCount);
      ArmOne(wheels, history, p, id, slotCount);
      InsertHead(wheels, id, slotCount);
      PlaceKey(slotCount, id);
      history := history + [Armed(id, slotCount)];
    }

    /** The end of `repeat`: the timer is armed under its new id and its record entered. */
    method AddTimer(id: TimerId, ctx: Context, ghost ask: Request, ghost p: Phase, ghost hand: set<TimerId>)
      requires Valid(p, hand) && registered && id !in timers && Answers(ctx, ask)
      modifies this`wheels, this`history, this`timers, this`current, this`lives
      ensures Valid(p, hand) && AllKept(old(Now()), Now())
      ensures OnlyArmed(old(wheels), old(history), wheels, history, p)
      ensures Now() == Created(old(Now()), old(Flat()), id, ctx, ask, SlotCount(ctx.duration))
      ensures history == old(history) + [Armed(id, SlotCount(ctx.duration))]
      ensures Queue(wheels, p) == old(Queue(wheels, p))
                + if Wrapped(p) && SlotCount(ctx.duration) == SIZE then [id] else []
    {
      hide Refines, InLine, Book, AllKept, OnlyArmed, Queue, SlotCount, State, Mirrors, InitialTimes;
      NotDue(Now(), history, hand, id);
      BookRepeat(Now(), history, hand, id, ctx, ask);
      KeptCreated(Now(), State(history), id, ctx, ask, SlotCount(ctx.duration));
      ghost var life := NewLife(Now(), State(history), id, ask, SlotCount(ctx.duration));
      InsertTimer(ctx.duration, id, p);
      timers := timers[id := ctx];
      current := current[id := |lives|];
      lives := lives + [life];
    }

    method Repeat(duration: Duration, times: Times, serviceid: nat, ghost p: Phase, ghost hand: set<TimerId>)
      returns (id: TimerId, ok: bool)
      requires Valid(p, hand)
      modifies this`uuid, this`wheels, this`history, this`timers, this`current, this`lives
      ensures ok <==> !registered || old(|timers|) < ID_COUNT
      ensures Valid(p, hand) && AllKept(old(Now()), Now())
      ensures OnlyArmed(old(wheels), old(history), wheels, history, p)
      ensures !ok || !registered ==>
        && (ok ==> id == 0)
        && Now() == old(Now()) && wheels == old(wheels) && history == old(history)
      // a new timer with the times and the service asked for, at least ten milliseconds, and those in whole ticks
      ensures ok && registered ==>
        && id in timers && timers[id].serviceid == serviceid
        && timers[id].duration == (if duration < 10 then 10 else duration)
        && |lives| == old(|lives|) + 1
        && var c := lives[old(|lives|)].made;
           && c.id == id && c.asked == duration && c.quota == times && c.serviceid == serviceid
           && (duration <= 10 ==> c.n == 1) && (duration > 10 ==> 10 * (c.n - 1) < duration <= 10 * c.n)
      ensures ok && registered ==>
        var d := AtLeast(duration);
        && id !in old(timers)
        && Now() == Created(old(Now()), old(Flat()), id, Context(d, InitialTimes(times), serviceid),
                            Request(duration, times, serviceid), SlotCount(d))
        && history == old(history) + [Armed(id, SlotCount(d))]
        && Queue(wheels, p) == old(Queue(wheels, p)) + if Wrapped(p) && SlotCount(d) == SIZE then [id] else []
    {
      hide Refines, InLine, Book, AllKept, OnlyArmed, Queue, SlotCount, State, AtLeast, InitialTimes, Mirrors;
      KeptReflexive(Now());
      OnlyArmedReflexive(wheels, history, p);
      id, ok := 0, true;
      if !registered {
        return;
      }
      var d := AtLeast(duration);
      id, ok := CreateTimerId();
      if !ok {
        return;
      }
      ghost var ask := Request(duration, times, serviceid);
      CreatedAsAsked(Now(), State(history), id, Context(d, InitialTimes(times), serviceid), ask);
      AddTimer(id, Context(d, InitialTimes(times), serviceid), ask, p, hand);
    }

    method Remove(timerid: TimerId, ghost p: Phase, ghost hand: set<TimerId>)
      requires Valid(p, hand)
      modifies this`timers, this`lives
      ensures Valid(p, hand) && AllKept(old(Now()), Now())
      ensures timers == if timerid in old(timers) then old(timers)[timerid := Flagged(old(timers)[timerid])]
                        else old(timers)
      ensures Listed(old(Now()), timerid) && !IsRemoved(old(timers)[timerid].times) ==>
        Now() == Unplugged(old(Now()), timerid, Fires(HeardBy(old(Now()), timerid)))
      ensures !(timerid in old(timers) && !IsRemoved(old(timers)[timerid].times)) ==> Now() == old(Now())
      ensures Now() == Do(old(Now()), old(Flat()), Action.Remove(timerid), 0)
    {
      hide Refines, InLine, Book, AllKept, CallsOf, Fires;
      KeptReflexive(Now());
      if timerid in timers {
        IsListed(Now(), history, hand, timerid);
        if !IsRemoved(timers[timerid].times) {
          ghost var fires := Fires(HeardBy(Now(), timerid));
          BookRemove(Now(), history, hand, timerid, fires);
          OwnIndex(Now(), history, hand, timerid);
          KeptUnplugged(Now(), timerid);
          lives := lives[current[timerid] := LifeOf(Now(), timerid).(stopped := fires)];
          timers := timers[timerid := Flagged(timers[timerid])];
        }
      }
    }

    /** One call of `repeat` or `remove` by the handler. */
    method Act(a: Action, ghost p: Phase, ghost hand: set<TimerId>) returns (ok: bool, ghost id: TimerId)
      requires Valid(p, hand) && registered
      modifies this`uuid, this`wheels, this`history, this`timers, this`current, this`lives
      ensures Valid(p, hand) && AllKept(old(Now()), Now())
      ensures OnlyArmed(old(wheels), old(history), wheels, history, p)
      ensures ok ==>
        && Now() == Do(old(Now()), old(Flat()), a, id) && Wrapped(p) == old(Wrapped(p))
        && Acted(a, id, old(Wrapped(p)), old(timers), old(Queue(wheels, p)), timers, Queue(wheels, p))
      ensures ok || |timers| >= ID_COUNT
    {
      hide Refines, InLine, Book, AllKept, OnlyArmed, Queue, SlotCount;
      OnlyArmedReflexive(wheels, history, p);
      ok, id := true, 0;
      match a {
        case Repeat(duration, times, serviceid) =>
          var newId;
          newId, ok := Repeat(duration, times, serviceid, p, hand);
          id := newId;
          SameHead(old(wheels), old(history), wheels, history, p);
        case Remove(x) =>
          Remove(x, p, hand);
      }
    }

    /** The handler's own calls of `repeat` and `remove`; `ids` are the ids of the timers created. */
    method RunActions(actions: seq<Action>, ghost p: Phase, ghost hand: set<TimerId>)
      returns (ok: bool, ghost ids: seq<TimerId>)
      requires Valid(p, hand) && registered
      modifies this`uuid, this`wheels, this`history, this`timers, this`current, this`lives
      ensures Valid(p, hand) && AllKept(old(Now()), Now())
      ensures OnlyArmed(old(wheels), old(history), wheels, history, p)
      ensures ok ==>
        && |ids| == |actions| && Now() == DoAll(old(Now()), old(Flat()), actions, ids)
        && Did(actions, old(Wrapped(p)), old(timers), old(Queue(wheels, p)), timers, Queue(wheels, p))
      ensures ok || |timers| >= ID_COUNT
    {
      DoNothing(Now(), Flat());
      hide Refines, InLine, Book, AllKept, OnlyArmed, Did, Do, DoAll, Acted, Queue, SlotCount, State, Mirrors;
      ghost var b0, f, w0, h0, q0, wrapped := Now(), Flat(), wheels, history, Queue(wheels, p), Wrapped(p);
      ok, ids := true, [];
      var k := 0;
      KeptReflexive(b0);
      OnlyArmedReflexive(w0, h0, p);
      DidNothing(wrapped, b0.timers, q0);
      assert actions[..0] == [];
      while k < |actions|
        invariant k <= |actions| && ok && |ids| == k && registered
        invariant Now() == DoAll(b0, f, actions[..k], ids)
        invariant Valid(p, hand) && AllKept(b0, Now())
        invariant OnlyArmed(w0, h0, wheels, history, p) && Wrapped(p) == wrapped
        invariant Did(actions[..k], wrapped, b0.timers, q0, Now().timers, Queue(wheels, p))
      {
        ghost var b1, w1, h1, q1, id := Now(), wheels, history, Queue(wheels, p), 0;
        SameClock(w0, h0, w1, h1, p);
        ok, id := Act(actions[k], p, hand);
        AllKeptTransitive(b0, b1, Now());
        OnlyArmedTransitive(w0, h0, w1, h1, wheels, history, p);
        if !ok {
          return;
        }
        DidNext(actions[..k], wrapped, b0.timers, q0, b1.timers, q1, actions[k], id, Now().timers, Queue(wheels, p));
        DoOnTick(b1, f, State(h1), actions[k], id);
        DoAllNext(b0, f, actions[..k], ids, actions[k], id);
        assert actions[..k + 1] == actions[..k] + [actions[k]];
        ids := ids + [id];
        k := k + 1;
      }
      assert actions[..k] == actions;
    }

    /** One call of the handler for the timer in hand. */
    method Notify(id: TimerId, remove: bool, ghost p: Phase) returns (ok: bool, ghost ids: seq<TimerId>)
      requires Valid(p, {id}) && id in timers
      modifies this`uuid, this`wheels, this`history, this`timers, this`current, this`lives, this`trace, this`log
      ensures trace == old(trace) + [Call(id, old(timers)[id].serviceid, remove)]
      ensures Valid(p, {id}) && registered
      ensures AllKept(Called(old(Now()), Call(id, old(timers)[id].serviceid, remove), old(Flat()).clock), Now())
      ensures OnlyArmed(old(wheels), old(history), wheels, history, p)
      ensures ok ==>
        && |ids| == |handler(trace)|
        && Now() == DoAll(Called(old(Now()), Call(id, old(timers)[id].serviceid, remove), old(Flat()).clock),
                          old(Flat()), handler(trace), ids)
        && Obeyed(handler, old(Now()), trace, Now())
        && Did(handler(trace), old(Wrapped(p)), old(timers), old(Queue(wheels, p)), timers, Queue(wheels, p))
      ensures ok || |timers| >= ID_COUNT
    {
      hide Refines, InLine, Book, AllKept, OnlyArmed, Did, DoAll, Obeyed, Queue, State;
      var call := Call(id, timers[id].serviceid, remove);
      ghost var b, h := Now(), history;
      BookCall(b, history, call);
      trace := trace + [call];
      log := log + [Logged(call, State(history).clock)];
      ok, ids := RunActions(handler(trace), p, {id});
      if ok {
        DidFlags(handler(trace), old(Wrapped(p)), b.timers, old(Queue(wheels, p)), timers, Queue(wheels, p));
        ObeyedCall(handler, b, h, call, trace, ids, Now(), history);
      }
    }

    /** The last call for the timer in hand, after which it is erased. */
    method Erase(id: TimerId, ghost p: Phase) returns (ok: bool)
      requires Valid(p, {id}) && id in timers && AtEnd(Now(), id, Flat().clock)
      modifies this`uuid, this`wheels, this`history, this`timers, this`current, this`lives, this`trace, this`log
      ensures |wheels| == LEVELS && Refines(wheels, history, p)
      ensures OnlyArmed(old(wheels), old(history), wheels, history, p) && Later(old(Now()), Now())
      ensures trace == old(trace) + [Call(id, old(timers)[id].serviceid, true)]
      ensures ok ==>
        && Valid(p, {}) && id !in timers
        && Listed(old(Now()), id) && old(current)[id] < |lives| && lives[old(current)[id]].until == |log|
        && Obeyed(handler, old(Now()), trace, Now())
        && Dealt(handler, id, false, old(Wrapped(p)), old(timers), old(Queue(wheels, p)), timers, Queue(wheels, p))
      ensures ok || |timers| >= ID_COUNT
    {
      hide Refines, InLine, Book, Kept, AllKept, Later, CallsOf, IsRemoved, OnlyArmed, Did, Dealt, DoAll, Obeyed,
        Queue, AtEnd, EndedOk;
      ghost var b := Now();
      ghost var call := Call(id, timers[id].serviceid, true);
      IsListed(b, history, {id}, id);
      ghost var ids;
      ok, ids := Notify(id, true, p);
      NotifiedLater(b, call, old(Flat()).clock, old(history), Now());
      if !ok {
        return;
      }
      EndsInOrder(b, id, old(Flat()).clock, call.serviceid, Now());
      IsListed(Now(), history, {id}, id);
      BookEnd(Now(), history, id);
      ErasedLater(Now(), id);
      ErasedObeyed(handler, b, trace, Now(), id);
      LaterTransitive(b, Now(), Erased(Now(), id));
      DealtFrom(handler, trace, id, old(Wrapped(p)), old(timers), old(Queue(wheels, p)), timers, Queue(wheels, p));
      DealtHand(handler, id, false, old(Wrapped(p)), old(timers), old(Queue(wheels, p)), timers, Queue(wheels, p),
                timers - {id});
      lives := lives[current[id] := LifeOf(Now(), id).(until := |log|)];
      timers := timers - {id};
      current := current - {id};
    }

    /** The end of a fire call: the duration to arm the timer with again, or 0 if the counter has run out. */
    method CountDown(id: TimerId, ghost p: Phase) returns (d: Duration)
      requires Valid(p, {id}) && id in timers && (!IsInfinite(timers[id].times) ==> timers[id].times > 0)
      requires IsRemoved(CountedDown(timers[id]).times) == IsRemoved(timers[id].times)
      requires IsInfinite(CountedDown(timers[id]).times) == IsInfinite(timers[id].times)
      modifies this`timers
      ensures Valid(p, {id}) && Listed(old(Now()), id)
      ensures Now() == WithEntry(old(Now()), id, CountedDown(old(timers)[id]), LifeOf(old(Now()), id))
      ensures d == if GoesOn(timers[id]) then timers[id].duration else 0
    {
      hide Refines, InLine, Book, IsInfinite, IsRemoved, Counter;
      IsListed(Now(), history, {id}, id);
      BookHand(Now(), history, id, CountedDown(timers[id]));
      assert lives[current[id] := LifeOf(Now(), id)] == lives;
      if IsInfinite(timers[id].times) {
        assert timers[id := timers[id]] == timers;
        d := timers[id].duration;
      } else {
        timers := timers[id := Decremented(timers[id])];
        d := if Counter(timers[id].times) > 0 then timers[id].duration else 0;
      }
    }

    /** One fire call for a timer that has not been removed. A result of 0 means that it was its last one. */
    method Fire(id: TimerId, ghost p: Phase) returns (d: Duration, ok: bool)
      requires Valid(p, {id}) && id in timers && InHand(Now(), id, Flat().clock) && !IsRemoved(timers[id].times)
      modifies this`uuid, this`wheels, this`history, this`timers, this`current, this`lives, this`trace, this`log
      ensures |wheels| == LEVELS && Refines(wheels, history, p)
      ensures OnlyArmed(old(wheels), old(history), wheels, history, p) && Later(old(Now()), Now())
      ensures trace == old(trace) + [Call(id, old(timers)[id].serviceid, false)]
      ensures ok ==>
        && Valid(p, {id}) && id in timers && id in old(current) && id in current && current[id] == old(current)[id]
        && timers[id].serviceid == old(timers)[id].serviceid
        && Obeyed(handler, old(Now()), trace, Now())
        && Dealt(handler, id, true, old(Wrapped(p)), old(timers), old(Queue(wheels, p)), timers, Queue(wheels, p))
        && if d == 0 then AtEnd(Now(), id, Flat().clock)
           else d == timers[id].duration && ToRearm(Now(), id, Flat().clock) && OneLess(old(timers)[id], timers[id])
      ensures ok && IsInfinite(old(timers)[id].times) && NeverRemoves(handler, id) ==>
        d != 0 && timers[id] == old(timers)[id]
      ensures ok || |timers| >= ID_COUNT
    {
      hide Refines, InLine, Book, Kept, AllKept, Later, CallsOf, LifeOk, IsRemoved, IsInfinite, Counter, OnlyArmed,
        Did, Dealt, DoAll, Obeyed, Queue, InHand, ToRearm, AtEnd;
      ghost var b := Now();
      ghost var call, wrapped := Call(id, timers[id].serviceid, false), Wrapped(p);
      IsListed(b, history, {id}, id);
      d := 0;
      ghost var ids;
      ok, ids := Notify(id, false, p);
      NotifiedLater(b, call, old(Flat()).clock, old(history), Now());
      if !ok {
        return;
      }
      FiredInOrder(b, id, old(Flat()).clock, Now());
      ghost var b1, ts1 := Now(), timers;
      DealtFrom(handler, trace, id, wrapped, old(timers), old(Queue(wheels, p)), timers, Queue(wheels, p));
      DidKeeps(handler, trace, id, wrapped, old(timers), old(Queue(wheels, p)), timers, Queue(wheels, p));
      d := CountDown(id, p);
      HandLater(b1, id, timers[id]);
      HandObeyed(handler, b, trace, b1, id, timers[id]);
      LaterTransitive(b, b1, Now());
      DealtHand(handler, id, true, wrapped, old(timers), old(Queue(wheels, p)), ts1, Queue(wheels, p), timers);
      SameClock(old(wheels), old(history), wheels, history, p);
    }

    /** Deals with the timer whose key has just been taken from the wheels. A result of 0 means that it is gone,
        any other result is the duration to arm it with again. */
    method OnTimer(id: TimerId, ghost p: Phase) returns (d: Duration, ok: bool)
      requires Valid(p, {id}) && id in timers && InHand(Now(), id, Flat().clock)
      modifies this`uuid, this`wheels, this`history, this`timers, this`current, this`lives, this`trace, this`log
      ensures |wheels| == LEVELS && Refines(wheels, history, p)
      ensures OnlyArmed(old(wheels), old(history), wheels, history, p) && Later(old(Now()), Now())
      ensures old(trace) <= trace
      ensures ok ==>
        && trace == old(trace)
                    + (if IsRemoved(old(timers)[id].times) then [] else [Call(id, old(timers)[id].serviceid, false)])
                    + (if d == 0 then [Call(id, old(timers)[id].serviceid, true)] else [])
        && Obeyed(handler, old(Now()), trace, Now())
        && Dealt(handler, id, !IsRemoved(old(timers)[id].times), old(Wrapped(p)), old(timers), old(Queue(wheels, p)),
                 timers, Queue(wheels, p))
      ensures ok && d == 0 ==>
        && Valid(p, {}) && id !in timers
        && Listed(old(Now()), id) && old(current)[id] < |lives| && lives[old(current)[id]].until == |log|
      ensures ok && d != 0 ==>
        && Valid(p, {id}) && !IsRemoved(old(timers)[id].times) && id in timers && ToRearm(Now(), id, Flat().clock)
        && d == timers[id].duration && OneLess(old(timers)[id], timers[id])
      ensures ok && !IsRemoved(old(timers)[id].times) && IsInfinite(old(timers)[id].times) ==>
        NeverRemoves(handler, id) ==> d != 0 && timers[id] == old(timers)[id]
      ensures ok || |timers| >= ID_COUNT
    {
      hide Refines, InLine, Book, Later, CallsOf, LifeOk, IsRemoved, IsInfinite, Counter, OnlyArmed, Dealt, Obeyed,
        Queue, InHand, ToRearm, AtEnd;
      ghost var b, removed := Now(), IsRemoved(timers[id].times);
      IsListed(b, history, {id}, id);
      d := 0;
      if !IsRemoved(timers[id].times) {
        d, ok := Fire(id, p);
        if !ok || d != 0 {
          return;
        }
        SameHead(old(wheels), old(history), wheels, history, p);
        ghost var b1, t1, w1, h1, q1 := Now(), trace, wheels, history, Queue(wheels, p);
        ok := Erase(id, p);
        LaterTransitive(b, b1, Now());
        OnlyArmedTransitive(old(wheels), old(history), w1, h1, wheels, history, p);
        if ok {
          ObeyedTransitive(handler, b, t1, b1, trace, Now());
          DealtTransitive(handler, id, true, false, old(Wrapped(p)), b.timers, old(Queue(wheels, p)), b1.timers, q1,
                          timers, Queue(wheels, p));
        }
      } else {
        RemovedAtEnd(b, id, Flat().clock);
        ok := Erase(id, p);
      }
    }

    /** Takes the front key of the list that is being drained. */
    method TakeKey(d: nat) returns (id: TimerId)
      requires Valid(Draining(d), {}) && Shaped(wheels) && d < SIZE && wheels[0].slots[d] != []
      modifies this`wheels, this`history
      ensures id == KeyId(old(wheels[0].slots[d][0])) && id in timers
      ensures Valid(Draining(d), {id}) && InHand(Now(), id, Flat().clock)
      ensures history == old(history) + [Fired(id)] && Flat().clock == old(Flat()).clock
      ensures |wheels| == LEVELS && wheels[0].head == old(wheels[0].head)
      ensures old(Queue(wheels, Draining(d))) == [id] + Queue(wheels, Draining(d))
      ensures FullTurns(history) == old(FullTurns(history))
    {
      hide Book, LifeOk, CallsOf, DueTick, Refines, InLine, State;
      var keys := wheels[0].slots[d];
      id := KeyId(keys[0]);
      FireRefines(wheels, history, d);
      TakeInLine(wheels, history, d, id);
      Extend(history, Fired(id));
      FullTurnsExtend(history, Fired(id));
      BookFire(Now(), history, id);
      TakenFirst(wheels, d);
      wheels := SetFront(wheels, d, keys[1..]);
      history := history + [Fired(id)];
    }

    // ----- one tick -----

    ghost predicate IsCalm(p: Phase)
      reads this`timers, this`wheels, this`handler
    {
      Calm(handler, timers, Queue(wheels, p))
    }

    ghost predicate GoesRound(p: Phase)
      reads this`timers, this`wheels, this`registered, this`handler
    {
      NeverEnds(handler, Wrapped(p), timers, Queue(wheels, p))
    }

    ghost predicate IsEnough(p: Phase, turns: int, rounds: nat)
      reads this`timers, this`wheels, this`registered, this`handler
    {
      Enough(handler, Wrapped(p), timers, Queue(wheels, p), turns, rounds)
    }

    /** One round of `expired`. */
    method ExpireOne(d: nat) returns (ok: bool)
      requires Valid(Draining(d), {}) && Shaped(wheels) && d < SIZE && wheels[0].slots[d] != []
      modifies this`uuid, this`wheels, this`history, this`timers, this`current, this`lives, this`trace, this`log
      ensures |wheels| == LEVELS && Refines(wheels, history, Draining(d))
      ensures Wrapped(Draining(d)) == old(Wrapped(Draining(d)))
      ensures Flat().clock == old(Flat()).clock && Later(old(Now()), Now()) && old(trace) <= trace
      ensures ok ==> Valid(Draining(d), {}) && Obeyed(handler, old(Now()), trace, Now())
      ensures ok ==> old(Queue(wheels, Draining(d))) != [] && old(Queue(wheels, Draining(d)))[0] in old(timers)
      ensures ok ==>
        var id := old(Queue(wheels, Draining(d)))[0];
        trace == old(trace)
          + (if IsRemoved(old(timers)[id].times) then [] else [Call(id, old(timers)[id].serviceid, false)])
          + (if id in timers then [] else [Call(id, old(timers)[id].serviceid, true)])
      ensures ok ==> old(Queue(wheels, Draining(d)))[1..] <= Queue(wheels, Draining(d))
      ensures ok ==>
        |Queue(wheels, Draining(d))| == old(|Queue(wheels, Draining(d))|) - 1
          + if Wrapped(Draining(d)) then FullTurns(history) - old(FullTurns(history)) else 0
      ensures ok && old(IsCalm(Draining(d))) ==>
        && IsCalm(Draining(d))
        && TotalRounds(timers, Queue(wheels, Draining(d))) < old(TotalRounds(timers, Queue(wheels, Draining(d))))
      ensures ok && old(GoesRound(Draining(d))) ==> GoesRound(Draining(d))
      ensures ok || |timers| >= ID_COUNT
    {
      hide Refines, InLine, Book, LifeOk, IsRemoved, IsInfinite, SlotCount, State, OnlyArmed, Later, Queue, InHand,
        ToRearm, Dealt, Obeyed, Stuck, SomeFires, Turning, NeverAsksFullTurn, NeverRemoves, Restless, FullTurns,
        Counter, Mirrors, Calmer, Pursued;
      ghost var p := Draining(d);
      ghost var ts0, q0 := timers, Queue(wheels, p);
      var id := TakeKey(d);
      ghost var b, w1, h1 := Now(), wheels, history;
      IsListed(b, history, {id}, id);
      var duration;
      duration, ok := OnTimer(id, p);
      ArmedFacts(w1, h1, wheels, history, p);
      if !ok {
        return;
      }
      ghost var q1, w2, h2, again := Queue(wheels, p), wheels, history, false;
      if duration != 0 {
        IsListed(Now(), history, {id}, id);
        IsDraining(wheels, history, p);
        again := Wrapped(p) && SlotCount(duration) == SIZE;
        BookRearm(Now(), history, id);
        InsertTimer(duration, id, p);
        ArmedFacts(w2, h2, wheels, history, p);
        FullTurnsExtend(h2, Armed(id, SlotCount(duration)));
      }
      ghost var q2 := Queue(wheels, p);
      RoundMade(handler, Wrapped(p), duration != 0, again, id, ts0, q0, timers, q1, q2);
      RoundPrefix(handler, Wrapped(p), duration != 0, again, ts0, q0, timers, q1, q2);
      if NeverAsksFullTurn(handler) && forall x :: x in q0 ==> !Endless(ts0, x) {
        RoundCounts(handler, Wrapped(p), duration != 0, again, ts0, q0, timers, q1, q2);
      }
      if old(GoesRound(p)) {
        if x :| Stuck(handler, ts0, q0, x) {
          RoundSticks(handler, true, duration != 0, again, ts0, q0, timers, q1, q2, x);
        } else {
          RoundChases(handler, true, duration != 0, again, ts0, q0, timers, q1, q2);
        }
      }
    }

    /** The loop of `expired` over the list of slot `d`, cut off after `fuel` rounds because it need not terminate:
        `finished` says whether it ran to its end. */
    method Expired(d: nat, fuel: nat) returns (finished: bool, ghost turns: int)
      requires Valid(Draining(d), {})
      modifies this`uuid, this`wheels, this`history, this`timers, this`current, this`lives, this`trace, this`log
      ensures Shaped(wheels) && d < SIZE && Refines(wheels, history, Draining(d)) && Flat().clock == old(Flat()).clock
      ensures Later(old(Now()), Now()) && old(trace) <= trace
      ensures finished || |timers| < ID_COUNT ==> Valid(Draining(d), {}) && Obeyed(handler, old(Now()), trace, Now())
      ensures finished ==> wheels[0].slots[d] == []
      ensures finished ==> !old(GoesRound(Draining(d)))
      ensures !finished && |timers| < ID_COUNT ==>
        !old(IsEnough(Draining(d), turns, fuel))
      ensures turns == FullTurns(history) - old(FullTurns(history))
      ensures Wrapped(Draining(d)) == old(Wrapped(Draining(d)))
      // so, on a wrapping tick and for a handler that neither asks for the period nor removes what is drained
      ensures
        && NeverAsksFullTurn(handler) && Wrapped(Draining(d)) && |timers| < ID_COUNT
        && (forall id :: id in old(Queue(wheels, Draining(d))) ==> NeverRemoves(handler, id))
        && fuel >= old(TotalRounds(timers, Queue(wheels, Draining(d)))) ==>
        (finished <==> forall id :: id in old(Queue(wheels, Draining(d))) ==> !Endless(old(timers), id))
    {
      hide Book, Legal, State, Later, Refines, Mirrors, NeverAsksFullTurn, NeverRemoves, Restless, Endless, FullTurns,
        Calm, NeverEnds, Obeyed;
      MirrorsSize(log, trace);
      ghost var p, q0 := Draining(d), Queue(wheels, Draining(d));
      var left := fuel;
      turns := 0;
      RefinesShape(wheels, history, p);
      LaterReflexive(Now());
      ObeyedNothing(handler, Now(), trace);
      QueueEmpty(wheels, d);
      while left > 0 && wheels[0].slots[d] != []
        invariant Valid(p, {}) && Shaped(wheels) && d < SIZE && Wrapped(p) == old(Wrapped(p))
        invariant left <= fuel && State(history).clock == old(Flat()).clock
        invariant Later(old(Now()), Now()) && old(trace) <= trace && Obeyed(handler, old(Now()), trace, Now())
        invariant |Queue(wheels, p)| + fuel - left
               == |q0| + if Wrapped(p) then turns else 0
        invariant turns == FullTurns(history) - old(FullTurns(history))
        invariant old(IsCalm(p)) ==>
                    IsCalm(p) && TotalRounds(timers, Queue(wheels, p)) + fuel - left <= TotalRounds(old(timers), q0)
        invariant old(GoesRound(p)) ==> GoesRound(p)
      {
        ghost var b, t := Now(), trace;
        var ok := ExpireOne(d);
        LaterTransitive(old(Now()), b, Now());
        RefinesShape(wheels, history, p);
        turns := FullTurns(history) - old(FullTurns(history));
        if !ok {
          return false, turns;
        }
        ObeyedTransitive(handler, old(Now()), t, b, trace, Now());
        left := left - 1;
      }
      finished := wheels[0].slots[d] == [];
      QueueEmpty(wheels, d);
      EmptyEnds(handler, Wrapped(p), timers, Queue(wheels, p));
      SomeRounds(timers, Queue(wheels, p));
      if NeverAsksFullTurn(handler) && forall id :: id in q0 ==> NeverRemoves(handler, id) {
        EndsIff(handler, old(timers), q0, turns, fuel);
      }
    }

    /** The inner loop of the cascade: the keys of the front slot of wheel `i + 1` move to wheel `i`, front first. */
    method SpillFront(i: nat)
      requires WheelsOk(wheels) && i + 1 < LEVELS && Spillable(wheels[i + 1].slots[wheels[i + 1].head], i)
      modifies this`wheels
      ensures var ws := old(wheels);
        wheels == ws[i := Spill(ws[i], ws[i + 1].slots[ws[i + 1].head], i)]
                    [i + 1 := ws[i + 1].(slots := ws[i + 1].slots[ws[i + 1].head := []])]
    {
      hide Spill;
      ghost var ws := wheels;
      ghost var h, all := ws[i + 1].head, ws[i + 1].slots[ws[i + 1].head];
      while wheels[i + 1].slots[wheels[i + 1].head] != []
        invariant Shaped(wheels) && wheels[i + 1].head == h
        invariant Spillable(wheels[i + 1].slots[h], i)
        invariant Spill(wheels[i], wheels[i + 1].slots[h], i) == Spill(ws[i], all, i)
        invariant wheels == ws[i := wheels[i]][i + 1 := wheels[i + 1]]
        invariant wheels[i + 1].slots == ws[i + 1].slots[h := wheels[i + 1].slots[h]]
        decreases |wheels[i + 1].slots[h]|
      {
        var keys := wheels[i + 1].slots[wheels[i + 1].head];
        var key := keys[0];
        SpillNext(wheels[i], keys, i);
        wheels := wheels[i + 1 := wheels[i + 1].(slots := wheels[i + 1].slots[wheels[i + 1].head := keys[1..]])];
        var slot := GetSlot(key, i);
        wheels := wheels[i := PushFront(wheels[i], slot, key)];
      }
      SpillNone(wheels[i], i);
    }

    /** The cascade loop of `update`. */
    method CascadeWheels()
      requires WheelsOk(wheels)
      modifies this`wheels
      ensures wheels == Cascade(old(wheels), 0)
    {
      hide Spill, WheelOk;
      var i: nat := 0;
      while i + 1 < LEVELS && wheels[i].head == 0
        invariant i < LEVELS && WheelsOk(wheels) && Cascade(wheels, i) == Cascade(old(wheels), 0)
        decreases LEVELS - i
      {
        ghost var ws := wheels;
        FrontSpillable(ws, i);
        SpillFront(i);
        wheels := wheels[i + 1 := wheels[i + 1].(head := (wheels[i + 1].head + 1) % SIZE)];
        assert wheels == CascadeStep(ws, i);
        CascadeStepOk(ws, i);
        i := i + 1;
      }
    }

    /** The next tick wraps wheel 0. */
    ghost predicate WrapNext()
      reads this`registered, this`history
    {
      registered && (Flat().clock + 1) % SIZE == 0
    }

    /** The start of a tick: wheel 0 moves on, and the list at its old head is what has to be drained. */
    method BeginTick() returns (d: nat)
      requires Valid(Between, {})
      modifies this`wheels, this`history
      ensures Valid(Draining(d), {}) && d < SIZE && Shaped(wheels)
      ensures Flat() == old(Flat()).(clock := old(Flat()).clock + 1, draining := true)
      ensures FullTurns(history) == old(FullTurns(history))
      ensures Queue(wheels, Draining(d)) == old(Queue(wheels, Draining(wheels[0].head)))
      ensures Wrapped(Draining(d)) == old(WrapNext())
    {
      hide Refines, InLine, Book, Legal, State, FullTurns;
      d := wheels[0].head;
      RefinesShape(wheels, history, Between);
      BeginRefines(wheels, history);
      BeginInLine(wheels, history);
      BookTick(Now(), history, TickBegan);
      WrapTick(wheels, history);
      Extend(history, TickBegan);
      IsDraining(wheels, history, Between);
      FullTurnsExtend(history, TickBegan);
      wheels := Pop(wheels);
      history := history + [TickBegan];
    }

    /** The end of a tick: the cascade. */
    method EndTick(ghost d: nat)
      requires Valid(Draining(d), {}) && Shaped(wheels) && d < SIZE && wheels[0].slots[d] == []
      modifies this`wheels, this`history
      ensures Valid(Between, {}) && Flat() == old(Flat()).(draining := false)
      ensures FullTurns(history) == old(FullTurns(history))
    {
      hide Refines, InLine, Book, Legal, State, FullTurns;
      EndRefines(wheels, history, d);
      EndInLine(wheels, history, d);
      BookTick(Now(), history, TickEnded);
      Extend(history, TickEnded);
      FullTurnsExtend(history, TickEnded);
      CascadeWheels();
      history := history + [TickEnded];
      RefinesShape(wheels, history, Between);
    }

    /** The timers whose keys the next tick will drain. */
    ghost function NextQueue(): seq<TimerId>
      reads this`wheels
    {
      if Shaped(wheels) then Queue(wheels, Draining(wheels[0].head)) else []
    }

    /** The next tick will never end. */
    ghost predicate NeverEndsNext()
      reads this`wheels, this`history, this`timers, this`handler, this`registered
    {
      NeverEnds(handler, WrapNext(), timers, NextQueue())
    }

    ghost predicate EnoughNext(turns: int, rounds: nat)
      reads this`wheels, this`history, this`timers, this`handler, this`registered
    {
      Enough(handler, WrapNext(), timers, NextQueue(), turns, rounds)
    }

    /** A tick of `update` up to its cascade; `d` is the slot it drains, and `turns` how often a delay of 255 ticks was
        asked for. */
    method DrainTick(fuel: nat) returns (finished: bool, ghost d: nat, ghost turns: int)
      requires Valid(Between, {})
      modifies this`uuid, this`wheels, this`history, this`timers, this`current, this`lives, this`trace, this`log
      ensures Flat().clock == old(Flat()).clock + 1 && Later(old(Now()), Now()) && old(trace) <= trace
      ensures Shaped(wheels) && d < SIZE && Refines(wheels, history, Draining(d))
      ensures finished || |timers| < ID_COUNT ==> Valid(Draining(d), {}) && Obeyed(handler, old(Now()), trace, Now())
      ensures finished ==> wheels[0].slots[d] == [] && !old(NeverEndsNext())
      ensures !finished && |timers| < ID_COUNT ==> !old(EnoughNext(turns, fuel))
      ensures turns == FullTurns(history) - old(FullTurns(history))
      ensures old(NextQueue()) == [] ==>
        finished && Now() == old(Now()) && trace == old(trace) && Flat().due == old(Flat()).due
    {
      hide Refines, InLine, Book, Legal, State, Later, Mirrors, FullTurns, NeverEnds, Enough, Queue, Obeyed;
      RefinesShape(wheels, history, Between);
      MirrorsSize(log, trace);
      turns := 0;
      LaterReflexive(Now());
      ObeyedNothing(handler, Now(), trace);
      var slot := BeginTick();
      finished, d := true, slot;
      QueueEmpty(wheels, d);
      EmptyEnds(handler, Wrapped(Draining(d)), timers, []);
      if wheels[0].slots[slot] != [] {
        finished, turns := Expired(slot, fuel);
      }
    }

    /** One tick of `update`. */
    method Tick(fuel: nat) returns (finished: bool, ghost d: nat, ghost turns: int)
      requires Valid(Between, {})
      modifies this`uuid, this`wheels, this`history, this`timers, this`current, this`lives, this`trace, this`log
      ensures Flat().clock == old(Flat()).clock + 1 && Later(old(Now()), Now()) && old(trace) <= trace
      ensures finished ==> Valid(Between, {}) && !old(NeverEndsNext())
      ensures finished || |timers| < ID_COUNT ==> Obeyed(handler, old(Now()), trace, Now())
      ensures !finished ==> Refines(wheels, history, Draining(d))
      ensures !finished && |timers| < ID_COUNT ==> Valid(Draining(d), {}) && !old(EnoughNext(turns, fuel))
      ensures turns == FullTurns(history) - old(FullTurns(history))
      ensures old(NextQueue()) == [] ==>
        finished && Now() == old(Now()) && trace == old(trace) && Flat().due == old(Flat()).due
    {
      hide Refines, InLine, Book, Legal, State, Later, Mirrors, FullTurns, NeverEnds, Enough, Queue, Obeyed;
      finished, d, turns := DrainTick(fuel);
      if finished {
        EndTick(d);
      }
    }

    /** One tick of `update` that leaves `time` milliseconds: if nothing is due in all that time the tick changes
        nothing but the clock. */
    method Advance(ghost time: int, fuel: nat) returns (finished: bool, ghost d: nat)
      requires Valid(Between, {}) && time >= 0
      modifies this`uuid, this`wheels, this`history, this`timers, this`current, this`lives, this`trace, this`log
      ensures Flat().clock == old(Flat()).clock + 1 && Later(old(Now()), Now()) && old(trace) <= trace
      ensures finished ==> Valid(Between, {}) && !old(NeverEndsNext())
      ensures finished || |timers| < ID_COUNT ==> Obeyed(handler, old(Now()), trace, Now())
      ensures !finished ==> Refines(wheels, history, Draining(d)) && (|timers| < ID_COUNT ==> Valid(Draining(d), {}))
      ensures DueAfter(old(Flat()), time + PRECISION) ==>
        && finished && DueAfter(Flat(), time)
        && Now() == old(Now()) && trace == old(trace) && Flat().due == old(Flat()).due
    {
      hide Refines, InLine, Book, Legal, State, Later, Mirrors, NeverEnds, Enough, Queue, FullTurns, Obeyed;
      if DueAfter(Flat(), time + PRECISION) {
        NothingNext(time);
      }
      ghost var turns;
      finished, d, turns := Tick(fuel);
    }

    /** The loop of `update`. */
    method RunTicks(fuel: nat) returns (finished: bool, ghost d: nat)
      requires Valid(Between, {})
      modifies this`tick, this`dropped, this`uuid, this`wheels, this`history, this`timers, this`current, this`lives,
        this`trace, this`log
      ensures Later(old(Now()), Now()) && old(trace) <= trace
      ensures finished ==> Valid(Between, {}) && tick < PRECISION && (old(tick) >= 0 ==> tick >= 0)
      ensures finished || |timers| < ID_COUNT ==> Obeyed(handler, old(Now()), trace, Now())
      ensures !finished ==> Refines(wheels, history, Draining(d)) && (|timers| < ID_COUNT ==> Valid(Draining(d), {}))
      ensures PRECISION * (Flat().clock + dropped - old(Flat().clock + dropped)) + tick == old(tick)
      ensures if stop then finished && unchanged(this`wheels, this`timers, this`history, this`trace)
              else dropped == old(dropped)
      ensures old(NeverEndsNext()) && !stop && old(tick) >= PRECISION ==> !finished
      ensures !stop && DueAfter(old(Flat()), old(tick)) ==>
        finished && Now() == old(Now()) && trace == old(trace) && Flat().due == old(Flat()).due
    {
      hide Refines, InLine, Book, Legal, State, Later, NeverEnds, DueAfter, Obeyed, Valid;
      AllLogged();
      ghost var b0, t0, due0, sum0, tick0 := Now(), trace, Flat().due, Flat().clock + dropped, tick;
      ghost var never, idle, dropped0 := NeverEndsNext(), DueAfter(Flat(), tick), dropped;
      finished, d := true, 0;
      LaterReflexive(b0);
      ObeyedNothing(handler, b0, t0);
      while finished && tick >= PRECISION
        invariant Later(b0, Now()) && t0 <= trace && (finished ==> Valid(Between, {}) && (tick0 >= 0 ==> tick >= 0))
        invariant finished || |timers| < ID_COUNT ==> Obeyed(handler, b0, trace, Now())
        invariant !finished ==>
                    Refines(wheels, history, Draining(d)) && (|timers| < ID_COUNT ==> Valid(Draining(d), {}))
        invariant PRECISION * (Flat().clock + dropped - sum0) + tick == tick0
        invariant if stop then finished && unchanged(this`wheels, this`timers, this`history, this`trace)
                  else dropped == dropped0
        invariant !stop && never && finished ==> tick == tick0 && NeverEndsNext()
        invariant !stop && idle ==>
                    finished && DueAfter(Flat(), tick) && Now() == b0 && trace == t0 && Flat().due == due0
        decreases finished, tick
      {
        tick := tick - PRECISION;
        if stop {
          dropped := dropped + 1;
        } else {
          ghost var b, t := Now(), trace;
          finished, d := Advance(tick, fuel);
          LaterTransitive(b0, b, Now());
          if finished || |timers| < ID_COUNT {
            ObeyedTransitive(handler, b0, t, b, trace, Now());
          }
        }
      }
    }

    /** Advances the wheels by the time that has passed since the last reading of the clock. */
    method Update(now: int, fuel: nat) returns (finished: bool, oldTick: int, ghost d: nat)
      requires Valid(Between, {})
      modifies this`previousTick, this`epoch, this`tick, this`dropped, this`uuid, this`wheels, this`history,
        this`timers, this`current, this`lives, this`trace, this`log
      ensures Later(old(Now()), Now()) && old(trace) <= trace
      ensures finished ==> Valid(Between, {}) && tick < PRECISION && (oldTick >= 0 ==> tick >= 0)
      ensures finished || |timers| < ID_COUNT ==> Obeyed(handler, old(Now()), trace, Now())
      ensures !finished ==> Refines(wheels, history, Draining(d)) && (|timers| < ID_COUNT ==> Valid(Draining(d), {}))
      ensures oldTick == old(tick) + (if old(previousTick) == 0 then 0 else now - old(previousTick))
      ensures previousTick == now
      ensures PRECISION * (Flat().clock + dropped - old(Flat().clock + dropped)) + tick == oldTick
      ensures old(Accounted()) && (now != 0 || old(previousTick) == 0) ==> Accounted()
      ensures if stop then finished && unchanged(this`wheels, this`timers, this`history, this`trace)
              else dropped == old(dropped)
      // a tick that never ends does not end here
      ensures old(NeverEndsNext()) && !stop && oldTick >= PRECISION ==> !finished
      // ticks on which nothing is due change nothing but the clock
      ensures !stop && DueAfter(old(Flat()), oldTick) ==>
        finished && Now() == old(Now()) && trace == old(trace) && Flat().due == old(Flat()).due
    {
      hide Refines, InLine, Book, Legal, State, Later, Mirrors, NeverEnds, Obeyed;
      if previousTick == 0 {
        previousTick := now;
        epoch := now;
      }
      tick := tick + (now - previousTick);
      previousTick := now;
      oldTick := tick;
      finished, d := RunTicks(fuel);
    }

    lemma AllLogged()
      requires Valid(Between, {})
      ensures |log| == |trace|
    {
      hide Refines, InLine, Book;
    }

    lemma NothingNext(time: int)
      requires Valid(Between, {}) && time >= 0 && DueAfter(Flat(), time + PRECISION)
      ensures NextQueue() == []
    {
      hide Refines, InLine, Book, Queue, State;
      if NextQueue() != [] {
        NextIsDue(NextQueue()[0]);
      }
    }

    method StopAllTimer()
      modifies this`stop
      ensures stop
    {
      stop := true;
    }

    method StartAllTimer()
      modifies this`stop
      ensures !stop
    {
      stop := false;
    }

    // What the invariant says about every run, in the terms of a caller

    /** Between ticks the next tick drains exactly the timers that are due on it. */
    lemma NextIsDue(id: TimerId)
      requires Valid(Between, {})
      ensures id in NextQueue() <==> id in Flat().due && Flat().due[id] == Flat().clock + 1
    {
      FrontIsDue(wheels, history, id);
    }

    /** The order of the calls within a tick: of two timers that the next tick drains, one stands before the other
        exactly if it was armed first and the other was put on an even wheel then, or it was armed last and was put on
        an odd one. */
    lemma NextInOrder(i: nat, j: nat)
      requires Valid(Between, {}) && i < j < |NextQueue()|
      ensures var armed, a, b := PlacesOf(history).armed, NextQueue()[i], NextQueue()[j];
        && a in armed && b in armed && armed[a].at != armed[b].at
        && if armed[a].at < armed[b].at then armed[b].level % 2 == 0 else armed[a].level % 2 == 1
    {
      hide Refines, Book, PlacesOf;
      FrontInOrder(wheels, PlacesOf(history), i, j);
    }

    /** Unless an insertion was lost, the map and the wheels agree between ticks: each timer in the map has exactly one
        key in all the wheels together, and every key belongs to a timer in the map. */
    lemma OneKeyEach(id: TimerId, t: int)
      requires Valid(Between, {}) && AllPlaced(history) && Shaped(wheels)
      ensures id in timers <==> id in Flat().due
      ensures Table(wheels, LEVELS, Flat().clock, (id, t)) == if id in timers && Flat().due[id] == t then 1 else 0
    {
      assert Keys(wheels, Between, Flat().clock, (id, t)) == Pair(Flat().due, (id, t));
    }

    /** A timer is in the map exactly as long as it has not ended, and has ended before another one gets its id; its
        period is the time it was asked for in whole ticks, rounded up; and every call the handler received was for a
        timer that was in the map then, and names the service that this timer was created for. */
    lemma EachCreationOnce(p: Phase, hand: set<TimerId>, i: nat)
      requires Valid(p, hand) && i < |lives|
      ensures lives[i].until < 0 <==> lives[i].made.id in timers && current[lives[i].made.id] == i
      ensures forall j :: i < j < |lives| && lives[j].made.id == lives[i].made.id ==>
                0 <= lives[i].until <= lives[j].made.from
      ensures lives[i].made.asked <= 10 ==> lives[i].made.n == 1
      ensures lives[i].made.asked > 10 ==>
        10 * (lives[i].made.n - 1) < lives[i].made.asked <= 10 * lives[i].made.n
      ensures forall k :: 0 <= k < |trace| ==>
        exists j :: 0 <= j < |lives| && Covers(lives[j], trace[k].id, k)
                    && lives[j].made.serviceid == trace[k].serviceid
    {
      hide Refines, InLine, EntryOk, EndedOk;
      forall k | 0 <= k < |trace|
        ensures exists j :: 0 <= j < |lives| && Covers(lives[j], trace[k].id, k)
                            && lives[j].made.serviceid == trace[k].serviceid
      {
        assert Owned(Now(), k);
      }
      assert LifeKept(Now(), i);
      if lives[i].made.id in timers && current[lives[i].made.id] == i {
        IsListed(Now(), history, hand, lives[i].made.id);
      }
    }

    /** A timer that is gone received its quota of fire calls, or as many as it had when it was removed, and then one
        remove call; one that was neither counted nor removed is never gone. Each fire call came a whole number of
        periods after the creation, as long as no period was cut short. */
    lemma CallsOfEnded(p: Phase, hand: set<TimerId>, i: nat)
      requires Valid(p, hand) && i < |lives| && lives[i].until >= 0
      ensures lives[i].made.from <= lives[i].until <= |log|
      ensures
        var life := lives[i];
        var c := life.made;
        var calls := CallsOf(log[..life.until], c.id, c.from);
        var fires := |calls| - 1;
        && fires >= 0 && fires == (if life.stopped < 0 then c.quota else life.stopped)
        && (life.stopped < 0 ==> c.quota > 0) && (c.quota > 0 ==> fires <= c.quota)
        && calls[fires] == Heard(true, LastTick(c, fires))
        && forall j :: 0 <= j < fires ==>
             calls[j] == Heard(false, DueTick(c, j)) && (Undisturbed(c, j) <==> calls[j].tick == Planned(c, j))
    {
      assert LifeKept(Now(), i);
      var c := lives[i].made;
      var calls := CallsOf(log[..lives[i].until], c.id, c.from);
      forall j | 0 <= j < |calls| - 1
        ensures calls[j] == Heard(false, DueTick(c, j)) && (Undisturbed(c, j) <==> DueTick(c, j) == Planned(c, j))
      {
        EvenTicks(c, j);
        assert calls[j] == calls[..|calls| - 1][j];
      }
    }

    /** Between ticks a timer in the map whose key was not lost has received exactly the fire calls that are due by now,
        each on its tick: fewer than its quota, and none since its removal. */
    lemma CallsOfLive(id: TimerId, j: nat)
      requires Valid(Between, {}) && id in timers && Listed(Now(), id)
      ensures
        var life, calls := LifeOf(Now(), id), HeardBy(Now(), id);
        && OnSchedule(life.made, calls)
        && (life.made.quota > 0 ==> |calls| < life.made.quota)
        && (IsRemoved(timers[id].times) ==> life.stopped == |calls|)
        && (j < |calls| ==> DueTick(life.made, j) <= Flat().clock)
        && (id in Flat().due && j >= |calls| ==> DueTick(life.made, j) > Flat().clock)
    {
      IsListed(Now(), history, {}, id);
      var life, calls := LifeOf(Now(), id), HeardBy(Now(), id);
      CountFacts(timers[id].times, life, |calls|);
      if j < |calls| {
        HeardBefore(log, id, life.made.from, Flat().clock, j);
      } else if id in Flat().due {
        NotOverdue(wheels, history);
        assert EntryOk(id, timers[id], life, log, Flat().due, false);
        DueTicksAscend(life.made, |calls|, j);
      }
    }
  }

  lemma CreatedAsAsked(b: Ledger, f: Flat, id: TimerId, ctx: Context, ask: Request)
    requires Answers(ctx, ask)
    ensures var b' := Created(b, f, id, ctx, ask, SlotCount(ctx.duration));
      && b'.timers[id] == ctx && |b'.lives| == |b.lives| + 1
      && var c := b'.lives[|b.lives|].made;
         && c.id == id && c.asked == ask.asked && c.quota == ask.quota && c.serviceid == ask.serviceid
         && (ask.asked <= 10 ==> c.n == 1) && (ask.asked > 10 ==> 10 * (c.n - 1) < ask.asked <= 10 * c.n)
  {
    NewPeriod(b, f, id, ctx, ask);
    hide SlotCount, InitialTimes;
  }

  /** A timer of 2550 ms created at the start is due on tick 255, which wraps wheel 0. If it is endless and never
      removed, or if the handler asks for such a timer at every fire call, the update that reaches this tick does not
      return, however many rounds its loop is given. */
  method DivergingRun(v: Handler, times: Times, serviceid: nat, fuel: nat) returns (t: WorkerTimer, finished: bool)
    requires (times <= 0 && forall id :: NeverRemoves(v, id)) || Restless(v)
    ensures !finished
  {
    hide Refines, InLine, Book, State, NeverEnds, Restless, NeverRemoves;
    var id;
    t, id := OneTimer(v, times, serviceid);
    var oldTick;
    ghost var d;
    finished, oldTick, d := t.Update(1, 0);
    finished, oldTick, d := t.Update(2541, 0);
    assert t.timers[id] == Context(2550, InitialTimes(times), serviceid);
    NextFires(t, id, times);
    finished, oldTick, d := t.Update(2551, fuel);
  }

  method OneTimer(v: Handler, times: Times, serviceid: nat) returns (t: WorkerTimer, id: TimerId)
    ensures fresh(t) && t.Valid(Between, {}) && t.handler == v && !t.stop && t.previousTick == 0 && t.tick == 0
    ensures t.timers == map[id := Context(2550, InitialTimes(times), serviceid)]
    ensures t.Flat().clock == 0 && t.Flat().due == map[id := SIZE] && t.dropped == 0
  {
    hide Refines, InLine, Book, State;
    t := new WorkerTimer();
    t.SetOnTimer(v);
    var ok;
    id, ok := t.Repeat(2550, times, serviceid, Between, {});
    FirstArmed(t.history, id);
  }

  lemma FirstArmed(h: seq<Event>, id: TimerId)
    requires h == [Armed(id, SIZE)]
    ensures State(h).clock == 0 && State(h).due == map[id := SIZE]
  {
    assert State([]) == State(h[..0]);
  }

  lemma NextFires(t: WorkerTimer, id: TimerId, times: Times)
    requires t.Valid(Between, {}) && t.Flat().clock == 254 && t.Flat().due == map[id := SIZE]
    requires id in t.timers && t.timers[id].duration == 2550 && t.timers[id].times == InitialTimes(times)
    requires (times <= 0 && NeverRemoves(t.handler, id)) || Restless(t.handler)
    ensures t.NeverEndsNext()
  {
    hide Refines, InLine, Book, State, Queue, Turning, NeverRemoves, Restless, IsInfinite, IsRemoved;
    InitialTurns(t.timers[id], times);
    t.NextIsDue(id);
    assert id in t.NextQueue();
    assert IsInfinite(t.timers[id].times) && NeverRemoves(t.handler, id) ==>
      Stuck(t.handler, t.timers, t.NextQueue(), id);
  }

  lemma InitialTurns(ctx: Context, times: Times)
    requires ctx.duration == 2550 && ctx.times == InitialTimes(times)
    ensures Turning(ctx) && !IsRemoved(ctx.times) && (IsInfinite(ctx.times) <==> times <= 0)
  {}

  /** A handler that replaces each timer of 2550 ms that is called once by another one of the same kind. */
  const RELAY: Handler := (trace: seq<Call>) =>
    if trace != [] && !trace[|trace| - 1].remove then [Action.Repeat(2550, 1, 0)] else []

  lemma RelayIsRestless()
    ensures Restless(RELAY)
    ensures forall trace, a :: a in RELAY(trace) ==> a.Repeat? && a.times > 0
  {
    forall trace: seq<Call> | trace != [] && !trace[|trace| - 1].remove
      ensures exists a :: a in RELAY(trace) && FullTurn(a)
    {
      assert Action.Repeat(2550, 1, 0) in RELAY(trace);
    }
  }

  /** No timer is due within the ticks of the next `time` milliseconds. */
  ghost predicate DueAfter(f: Flat, time: int) {
    forall id :: id in f.due ==> PRECISION * (f.due[id] - f.clock) > time
  }

  lemma WrapTick(ws: Wheels, h: seq<Event>)
    requires Refines(ws, h, Between) && Shaped(ws)
    ensures Pop(ws)[0].head == 0 <==> (State(h).clock + 1) % SIZE == 0
  {
    PopReading(ws, State(h).clock);
  }

  lemma SpillNext(w: Wheel, keys: seq<Key>, i: nat)
    requires i < LEVELS && |w.slots| == SIZE && keys != [] && Spillable(keys, i)
    ensures GetSlot(keys[0], i) < SIZE && Spillable(keys[1..], i)
    ensures Spill(w, keys, i) == Spill(PushFront(w, GetSlot(keys[0], i), keys[0]), keys[1..], i)
  {
    assert keys[0] in keys;
  }

  lemma SpillNone(w: Wheel, i: nat)
    requires i < LEVELS && |w.slots| == SIZE
    ensures Spill(w, [], i) == w
  {}

  lemma RefinesShape(ws: Wheels, h: seq<Event>, p: Phase)
    requires Refines(ws, h, p)
    ensures Shaped(ws) && (p.Draining? ==> p.slot < SIZE)
  {}

  lemma InsertHead(ws: Wheels, id: TimerId, n: nat)
    requires Shaped(ws) && n > 0
    ensures Insert(ws, id, n)[0].head == ws[0].head
  {
    assert Heads(Insert(ws, id, n))[0] == Heads(ws)[0];
  }

  lemma SameHead(ws: Wheels, h: seq<Event>, ws': Wheels, h': seq<Event>, p: Phase)
    requires OnlyArmed(ws, h, ws', h', p)
    ensures |ws| == LEVELS && |ws'| == LEVELS && ws'[0].head == ws[0].head
  {}

  lemma NotifiedLater(b: Ledger, call: Call, clock: nat, h: seq<Event>, b': Ledger)
    requires Book(b, h, {call.id}) && clock == State(h).clock && AllKept(Called(b, call, clock), b')
    requires b.timers[call.id].serviceid == call.serviceid
    ensures Later(b, b')
  {
    BookCall(b, h, call);
    CalledLater(b, call, clock);
    KeptIsLater(Called(b, call, clock), h, {call.id}, b');
    LaterTransitive(b, Called(b, call, clock), b');
  }

  lemma DidKeeps(handler: Handler, trace: seq<Call>, id: TimerId, wrapped: bool, ts: map<TimerId, Context>,
                 q: seq<TimerId>, ts': map<TimerId, Context>, q': seq<TimerId>)
    requires Did(handler(trace), wrapped, ts, q, ts', q') && id in ts
    ensures NeverRemoves(handler, id) ==> id in ts' && ts'[id] == ts[id]
  {
    hide Turning, Pursued;
  }

  lemma SameClock(ws: Wheels, h: seq<Event>, ws': Wheels, h': seq<Event>, p: Phase)
    requires OnlyArmed(ws, h, ws', h', p)
    ensures State(h').clock == State(h).clock && State(h').draining == State(h).draining
  {
    ArmsKeepState(h, h');
  }

  lemma TakenFirst(ws: Wheels, d: nat)
    requires Shaped(ws) && d < SIZE && ws[0].slots[d] != []
    ensures var keys, ws' := ws[0].slots[d], SetFront(ws, d, ws[0].slots[d][1..]);
            && Queue(ws, Draining(d)) == [KeyId(keys[0])] + Queue(ws', Draining(d))
            && |ws'| == LEVELS && ws'[0].head == ws[0].head
  {
    assert Heads(SetFront(ws, d, ws[0].slots[d][1..]))[0] == Heads(ws)[0];
  }

  lemma ArmedFacts(ws: Wheels, h: seq<Event>, ws': Wheels, h': seq<Event>, p: Phase)
    requires OnlyArmed(ws, h, ws', h', p)
    ensures |ws| == LEVELS && |ws'| == LEVELS && ws'[0].head == ws[0].head
    ensures State(h').clock == State(h).clock && State(h').draining == State(h).draining
    ensures |Queue(ws', p)| - |Queue(ws, p)|
         == if p.Draining? && ws[0].head == 0 then FullTurns(h') - FullTurns(h) else 0
  {
    SameClock(ws, h, ws', h', p);
  }

  lemma IsDraining(ws: Wheels, h: seq<Event>, p: Phase)
    requires Refines(ws, h, p)
    ensures State(h).draining == p.Draining?
  {}

  lemma RoundMade(handler: Handler, wrapped: bool, goesOn: bool, again: bool, id: TimerId, ts: map<TimerId, Context>,
                  q: seq<TimerId>, ts': map<TimerId, Context>, q1: seq<TimerId>, q': seq<TimerId>)
    requires id in ts && q != [] && q[0] == id
    requires Dealt(handler, id, !IsRemoved(ts[id].times), wrapped, ts, q[1..], ts', q1)
    requires q' == q1 + if again then [id] else []
    requires if goesOn then id in ts' && !IsRemoved(ts[id].times) && OneLess(ts[id], ts'[id]) else id !in ts'
    requires again <==> goesOn && wrapped && ts[id].duration >= PRECISION && SlotCount(ts[id].duration) == SIZE
    requires !IsRemoved(ts[id].times) && IsInfinite(ts[id].times) && NeverRemoves(handler, id) ==>
      goesOn && ts'[id] == ts[id]
    ensures Round(handler, wrapped, goesOn, again, ts, q, ts', q1, q')
  {
    hide Dealt, SlotCount, IsInfinite, IsRemoved, NeverRemoves;
  }

  /** Whoever is on the list stays there in the same place behind the timer of the round. */
  lemma RoundPrefix(handler: Handler, wrapped: bool, goesOn: bool, again: bool, ts: map<TimerId, Context>,
                    q: seq<TimerId>, ts': map<TimerId, Context>, q1: seq<TimerId>, q': seq<TimerId>)
    requires Round(handler, wrapped, goesOn, again, ts, q, ts', q1, q')
    ensures q != [] && q[1..] <= q'
  {
    hide SlotCount, IsInfinite, IsRemoved, NeverRemoves, NeverAsksFullTurn, Calmer, Restless, Pursued, OneLess, Endless;
  }

  lemma QueueEmpty(ws: Wheels, d: nat)
    requires Shaped(ws) && d < SIZE
    ensures Queue(ws, Draining(d)) == [] <==> ws[0].slots[d] == []
  {}

  lemma SomeRounds(ts: map<TimerId, Context>, q: seq<TimerId>)
    ensures q != [] ==> TotalRounds(ts, q) > 0
  {}

  lemma EmptyEnds(handler: Handler, wrapped: bool, ts: map<TimerId, Context>, q: seq<TimerId>)
    ensures q == [] ==> !NeverEnds(handler, wrapped, ts, q)
  {}

  /** No timer is pending past its tick between ticks. */
  lemma NotOverdue(ws: Wheels, h: seq<Event>)
    requires Refines(ws, h, Between)
    ensures forall id :: id in State(h).due ==> State(h).due[id] > State(h).clock
  {
    NeverOverdue(h);
  }

  lemma {:induction false} HeardBefore(log: seq<Logged>, id: TimerId, from: nat, clock: nat, j: nat)
    requires from <= |log| && j < |CallsOf(log, id, from)|
    requires forall k :: 0 <= k < |log| ==> log[k].tick <= clock
    ensures CallsOf(log, id, from)[j].tick <= clock
    decreases |log|
  {
    var n := |log| - 1;
    if j < |CallsOf(log[..n], id, from)| {
      HeardBefore(log[..n], id, from, clock, j);
    }
  }

  lemma MirrorsSize(log: seq<Logged>, trace: seq<Call>)
    requires Mirrors(log, trace)
    ensures |log| == |trace|
  {}

  lemma DidFlags(actions: seq<Action>, wrapped: bool, ts: map<TimerId, Context>, q: seq<TimerId>,
                 ts': map<TimerId, Context>, q': seq<TimerId>)
    requires Did(actions, wrapped, ts, q, ts', q')
    ensures forall id :: id in ts && Action.Remove(id) in actions ==> id in ts' && ts'[id] == Flagged(ts[id])
  {
    hide Turning, Pursued;
  }

  lemma HandObeyed(handler: Handler, b: Ledger, trace: seq<Call>, b1: Ledger, id: TimerId, ctx: Context)
    requires Obeyed(handler, b, trace, b1) && Listed(b1, id)
    ensures Obeyed(handler, b, trace, WithEntry(b1, id, ctx, LifeOf(b1, id)))
  {
    hide Obeyed;
    ObeyedStill(handler, b, trace, b1, WithEntry(b1, id, ctx, LifeOf(b1, id)));
  }

  lemma ErasedObeyed(handler: Handler, b: Ledger, trace: seq<Call>, b1: Ledger, id: TimerId)
    requires Obeyed(handler, b, trace, b1) && Listed(b1, id) && LifeOf(b1, id).until < 0
    ensures Obeyed(handler, b, trace, Erased(b1, id))
  {
    assert |trace| == |b1.log|;
    hide Obeyed;
    ObeyedStill(handler, b, trace, b1, Erased(b1, id));
  }

  ghost predicate Mirrors(log: seq<Logged>, trace: seq<Call>) {
    |log| == |trace| && forall k :: 0 <= k < |log| ==> log[k].call == trace[k]
  }

  lemma InsertPlaces(ws: Wheels, id: TimerId, n: nat, spot: Spot, slot: nat)
    requires Shaped(ws) && n > 0 && spot == FindSpot(Heads(ws), 0, n, 0)
    requires slot < SIZE
    requires spot.Spot? ==> spot.level < LEVELS && spot.slots < 0x1_0000_0000 && slot == GetSlot(spot.slots, spot.level)
    ensures Insert(ws, id, n)
         == if spot.Lost? then ws else PushBack(ws, spot.level, slot, MakeKey(id, spot.slots))
  {}

  lemma TopByte(slots: nat, slot: nat, i: nat)
    requires i < LEVELS && slots < ShiftLeft(1, i) && slot < 256
    ensures slots + ShiftLeft(slot, i) < 0x1_0000_0000
    ensures i + 1 < LEVELS ==> slots + ShiftLeft(slot, i) < ShiftLeft(1, i + 1)
    ensures GetSlot(slots + ShiftLeft(slot, i), i) == slot
  {
    if i == 0 {} else if i == 1 {} else if i == 2 {} else {}
  }

  lemma EmptyRefines(ws: Wheels)
    requires ws == seq(LEVELS, _ => Wheel(seq(SIZE, _ => []), 0))
    ensures Refines(ws, [], Between)
  {
    var fs := Dues(Heads(ws), LEVELS, 0);
    forall e ensures Keys(ws, Between, 0, e) == 0 {
      SlotsCountEmpty(ws[0].slots, fs[0], e);
      SlotsCountEmpty(ws[1].slots, fs[1], e);
      SlotsCountEmpty(ws[2].slots, fs[2], e);
      SlotsCountEmpty(ws[3].slots, fs[3], e);
    }
  }
}
