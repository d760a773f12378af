/** The list of keys that a tick is draining: how handlers make it grow, and how many rounds it takes to empty it. */
module DrainQueue {
  import opened Wheels
  import opened WheelTable
  import opened WheelTick
  import opened FlatTimer
  import opened Refinement
  import opened TimerBook

  function Ids(keys: seq<Key>): seq<TimerId> {
    seq(|keys|, i requires 0 <= i < |keys| => KeyId(keys[i]))
  }

  /** The timers whose keys are on the list being drained. */
  ghost function Queue(ws: Wheels, p: Phase): seq<TimerId> {
    if p.Draining? && Shaped(ws) && p.slot < SIZE then Ids(ws[0].slots[p.slot]) else []
  }

  /** How often a delay of exactly 255 ticks was asked for. */
  function FullTurns(h: seq<Event>): nat {
    if h == [] then 0
    else FullTurns(h[..|h| - 1]) + if h[|h| - 1].Armed? && h[|h| - 1].n == SIZE then 1 else 0
  }

  lemma FullTurnsExtend(h: seq<Event>, e: Event)
    ensures FullTurns(h + [e]) == FullTurns(h) + if e.Armed? && e.n == SIZE then 1 else 0
  {
    assert (h + [e])[..|h|] == h;
  }

  /** Nothing but arming happened since `h`. */
  ghost predicate OnlyArms(h: seq<Event>, h': seq<Event>) {
    h <= h' && forall i :: |h| <= i < |h'| ==> h'[i].Armed?
  }

  lemma {:induction false} ArmsKeepState(h: seq<Event>, h': seq<Event>)
    requires OnlyArms(h, h')
    ensures State(h').clock == State(h).clock && State(h').draining == State(h).draining
    decreases |h'|
  {
    if |h'| == |h| {
      assert h' == h;
    } else {
      ArmsKeepState(h, h'[..|h'| - 1]);
    }
  }

  /** A key joins the list being drained only for a delay of 255 ticks on a wrapping tick, and then at its end. */
  ghost predicate OnlyArmed(ws: Wheels, h: seq<Event>, ws': Wheels, h': seq<Event>, p: Phase) {
    && |ws| == LEVELS && |ws'| == LEVELS && ws'[0].head == ws[0].head
    && OnlyArms(h, h')
    && Queue(ws, p) <= Queue(ws', p)
    && |Queue(ws', p)| - |Queue(ws, p)|
       == if p.Draining? && ws[0].head == 0 then FullTurns(h') - FullTurns(h) else 0
  }

  lemma OnlyArmedReflexive(ws: Wheels, h: seq<Event>, p: Phase)
    requires |ws| == LEVELS
    ensures OnlyArmed(ws, h, ws, h, p)
  {}

  lemma OnlyArmedTransitive(w0: Wheels, h0: seq<Event>, w1: Wheels, h1: seq<Event>,
                             w2: Wheels, h2: seq<Event>, p: Phase)
    requires OnlyArmed(w0, h0, w1, h1, p) && OnlyArmed(w1, h1, w2, h2, p)
    ensures OnlyArmed(w0, h0, w2, h2, p)
  {
    hide Queue, FullTurns;
  }

  /** What arming one timer does to the list. */
  lemma ArmOne(ws: Wheels, h: seq<Event>, p: Phase, id: TimerId, n: nat)
    requires Refines(ws, h, p) && n > 0 && id !in State(h).due
    ensures OnlyArmed(ws, h, Insert(ws, id, n), h + [Armed(id, n)], p)
    ensures Queue(Insert(ws, id, n), p)
         == Queue(ws, p) + if p.Draining? && ws[0].head == 0 && n == SIZE then [id] else []
  {
    hide State, Legal, Reading, Table, Base, FindSpot, Pair, KeyOk, MakeKey, FullTurns;
    FullTurnsExtend(h, Armed(id, n));
    var ws' := Insert(ws, id, n);
    assert Heads(ws')[0] == Heads(ws)[0];
    if p.Draining? {
      if ws[0].head == 0 && n == SIZE {
        var key := DrainInsertHere(ws, p.slot, id);
        assert Ids(ws[0].slots[p.slot] + [key]) == Ids(ws[0].slots[p.slot]) + [id];
      } else {
        DrainInsertElsewhere(ws, p.slot, id, n);
      }
    }
  }

  // ----- who is on the list -----

  lemma {:induction false} CountIds(keys: seq<Key>, clock: int, d: nat, id: TimerId)
    requires forall k :: k in keys ==> GetSlot(k, 0) == d
    ensures Count(keys, DueAt(0, clock - d), (id, clock)) > 0 <==> id in Ids(keys)
  {
    if keys != [] {
      var n := |keys| - 1;
      assert keys == keys[..n] + [keys[n]];
      assert Ids(keys) == Ids(keys[..n]) + [KeyId(keys[n])];
      CountAppend(keys[..n], keys[n], DueAt(0, clock - d), (id, clock));
      CountIds(keys[..n], clock, d, id);
      assert DueAt(0, clock - d)(keys[n]) == (KeyId(keys[n]), clock);
    }
  }

  /** The list being drained holds the keys of exactly the timers that are due now. */
  lemma QueueIsDue(ws: Wheels, h: seq<Event>, d: nat, id: TimerId)
    requires Refines(ws, h, Draining(d))
    ensures id in Queue(ws, Draining(d)) <==> id in State(h).due && State(h).due[id] == State(h).clock
  {
    var f := State(h);
    assert Keys(ws, Draining(d), f.clock, (id, f.clock)) == Pair(f.due, (id, f.clock));
    NothingDue(SetFront(ws, d, []), Pending(ws, 0), f.clock, (id, f.clock));
    CountIds(ws[0].slots[d], f.clock, d, id);
  }

  /** Between ticks the front slot of wheel 0 holds the keys of exactly the timers that are due on the next tick. */
  lemma FrontIsDue(ws: Wheels, h: seq<Event>, id: TimerId)
    requires Refines(ws, h, Between)
    ensures Shaped(ws)
    ensures id in Queue(ws, Draining(ws[0].head)) <==> id in State(h).due && State(h).due[id] == State(h).clock + 1
  {
    BeginRefines(ws, h);
    Extend(h, TickBegan);
    QueueIsDue(Pop(ws), h + [TickBegan], ws[0].head, id);
  }

  // ----- rounds -----

  /** A timer with a period of 255 ticks that will be armed again or called for the last time. */
  predicate Turning(ctx: Context) {
    ctx.duration >= PRECISION && SlotCount(ctx.duration) == SIZE && !IsRemoved(ctx.times)
  }

  predicate Endless(timers: map<TimerId, Context>, id: TimerId) {
    id in timers && Turning(timers[id]) && IsInfinite(timers[id].times)
  }

  /** How many rounds of a wrapping tick it takes to be done with a timer that is not endless. */
  function Rounds(timers: map<TimerId, Context>, id: TimerId): (r: nat)
    ensures r > 0
  {
    if id in timers && Turning(timers[id]) && Counter(timers[id].times) > 0 then Counter(timers[id].times) else 1
  }

  function TotalRounds(timers: map<TimerId, Context>, ids: seq<TimerId>): nat {
    if ids == [] then 0 else TotalRounds(timers, ids[..|ids| - 1]) + Rounds(timers, ids[|ids| - 1])
  }

  lemma {:induction false} TotalRoundsFirst(timers: map<TimerId, Context>, ids: seq<TimerId>)
    requires ids != []
    ensures TotalRounds(timers, ids) == Rounds(timers, ids[0]) + TotalRounds(timers, ids[1..])
  {
    var n := |ids| - 1;
    if n > 0 {
      TotalRoundsFirst(timers, ids[..n]);
      assert ids[..n][1..] == ids[1..][..n - 1];
    }
  }

  /** The table of a handler that never asks for 255 ticks: whoever turns has done so before, with the same record. */
  ghost predicate Calmer(ts: map<TimerId, Context>, ts': map<TimerId, Context>) {
    forall x :: x in ts' && Turning(ts'[x]) ==> x in ts && ts'[x] == ts[x]
  }

  lemma {:induction false} TotalRoundsFall(ts: map<TimerId, Context>, ts': map<TimerId, Context>, ids: seq<TimerId>)
    requires forall x :: x in ids ==> Rounds(ts', x) <= Rounds(ts, x)
    ensures TotalRounds(ts', ids) <= TotalRounds(ts, ids)
  {
    if ids != [] {
      TotalRoundsFall(ts, ts', ids[..|ids| - 1]);
    }
  }

  /** One round takes its timer off the list, for good or with one call less to make. */
  lemma RoundDone(ts: map<TimerId, Context>, ids: seq<TimerId>, ts': map<TimerId, Context>, again: bool)
    requires ids != [] && Calmer(ts - {ids[0]}, ts' - {ids[0]})
    requires Turns(ts, ts', ids[0], again)
    requires forall x :: x in ids ==> !Endless(ts, x)
    ensures var ids' := ids[1..] + if again then [ids[0]] else [];
            && TotalRounds(ts', ids') < TotalRounds(ts, ids)
            && forall x :: x in ids' ==> !Endless(ts', x)
  {
    var id := ids[0];
    TotalRoundsFirst(ts, ids);
    forall x | x in ids ensures Rounds(ts', x) <= Rounds(ts, x) && !Endless(ts', x) {
      if x != id && x in ts' && Turning(ts'[x]) {
        assert x in ts' - {id};
      }
    }
    TotalRoundsFall(ts, ts', ids[1..]);
    if again {
      var ids' := ids[1..] + [id];
      assert ids'[..|ids'| - 1] == ids[1..];
      assert TotalRounds(ts', ids') == TotalRounds(ts', ids[1..]) + Rounds(ts', id);
    } else {
      assert ids[1..] + [] == ids[1..];
    }
  }

  /** What becomes of the timer of the round; `again` says whether its key has joined the list again. */
  ghost predicate Turns(ts: map<TimerId, Context>, ts': map<TimerId, Context>, id: TimerId, again: bool) {
    && (id in ts' && Turning(ts'[id]) ==>
         && id in ts && Turning(ts[id]) && IsInfinite(ts'[id].times) == IsInfinite(ts[id].times)
         && (!IsInfinite(ts[id].times) ==> Counter(ts'[id].times) == Counter(ts[id].times) - 1))
    && (again ==> id in ts && Turning(ts[id]) && Rounds(ts', id) < Rounds(ts, id))
  }

  lemma TurnOfOne(ts: map<TimerId, Context>, ts': map<TimerId, Context>, id: TimerId, goesOn: bool, again: bool)
    requires id in ts && !Endless(ts, id)
    requires if goesOn then id in ts' && !IsRemoved(ts[id].times) && OneLess(ts[id], ts'[id]) else id !in ts'
    requires again ==> goesOn && ts[id].duration >= PRECISION && SlotCount(ts[id].duration) == SIZE
    ensures Turns(ts, ts', id, again)
  {
    hide SlotCount, IsInfinite, IsRemoved, Counter;
  }

  // ----- what a handler does to the table and the list -----

  /** A timer that was not there before is on the list and will be called. */
  ghost predicate Pursued(ts: map<TimerId, Context>, ts': map<TimerId, Context>, q: seq<TimerId>) {
    exists id :: id in q && id !in ts && id in ts' && !IsRemoved(ts'[id].times)
  }

  /** The effect of a handler's actions. `wrapped` says that a tick that wraps wheel 0 is being drained. */
  ghost predicate Did(actions: seq<Action>, wrapped: bool, ts: map<TimerId, Context>, q: seq<TimerId>,
                      ts': map<TimerId, Context>, q': seq<TimerId>)
  {
    && q <= q' && ts.Keys <= ts'.Keys
    && (forall id :: id in ts && Action.Remove(id) !in actions ==> ts'[id] == ts[id])
    && (forall id :: id in ts && Action.Remove(id) in actions ==> ts'[id] == Flagged(ts[id]))
    && ((forall a :: a in actions ==> !FullTurn(a)) ==> Calmer(ts, ts') && q' == q)
    && (wrapped && (forall id :: Action.Remove(id) !in actions) && (exists a :: a in actions && FullTurn(a)) ==>
         Pursued(ts, ts', q'))
  }

  lemma DidNothing(wrapped: bool, ts: map<TimerId, Context>, q: seq<TimerId>)
    ensures Did([], wrapped, ts, q, ts, q)
  {}

  lemma DidRepeat(actions: seq<Action>, wrapped: bool, t0: map<TimerId, Context>, q0: seq<TimerId>,
                  t1: map<TimerId, Context>, q1: seq<TimerId>, a: Action, id: TimerId)
    requires Did(actions, wrapped, t0, q0, t1, q1) && a.Repeat? && id !in t1
    ensures var ctx := Context(AtLeast(a.duration), InitialTimes(a.times), a.serviceid);
            Did(actions + [a], wrapped, t0, q0, t1[id := ctx], q1 + if wrapped && FullTurn(a) then [id] else [])
  {
    var as' := actions + [a];
    var ctx := Context(AtLeast(a.duration), InitialTimes(a.times), a.serviceid);
    var t2, q2 := t1[id := ctx], q1 + if wrapped && FullTurn(a) then [id] else [];
    hide SlotCount, IsInfinite;
    assert a in as' && forall x :: x in actions ==> x in as';
    assert !IsRemoved(ctx.times);
    if wrapped && (forall x :: Action.Remove(x) !in as') && (exists x :: x in as' && FullTurn(x)) {
      if FullTurn(a) {
        assert id in q2;
      } else {
        assert exists x :: x in actions && FullTurn(x);
        assert Pursued(t0, t1, q1);
      }
      assert Pursued(t0, t2, q2);
    }
  }

  lemma DidRemove(actions: seq<Action>, wrapped: bool, t0: map<TimerId, Context>, q0: seq<TimerId>,
                  t1: map<TimerId, Context>, q: seq<TimerId>, id: TimerId, t2: map<TimerId, Context>)
    requires Did(actions, wrapped, t0, q0, t1, q)
    requires t2 == if id in t1 then t1[id := Flagged(t1[id])] else t1
    ensures Did(actions + [Action.Remove(id)], wrapped, t0, q0, t2, q)
  {
    var as' := actions + [Action.Remove(id)];
    hide SlotCount, IsInfinite, FullTurn;
    assert Action.Remove(id) in as' && forall x :: x in actions ==> x in as';
    if id in t1 {
      FlaggedAgain(t1[id]);
    }
    hide IsRemoved, SetRemoved, Turning, Pursued;
    assert forall x :: x in as' && x != Action.Remove(id) ==> x in actions;
    forall x | x in t0 && Action.Remove(x) in as' ensures t2[x] == Flagged(t0[x]) {
      assert x != id ==> Action.Remove(x) in actions;
      assert Action.Remove(x) in actions || t1[x] == t0[x];
      FlaggedAgain(t0[x]);
    }
    if forall a :: a in as' ==> !FullTurn(a) {
      RemoveCalms(t0, t1, id);
    }
  }

  lemma FlaggedAgain(ctx: Context)
    ensures Flagged(Flagged(ctx)) == Flagged(ctx) && IsRemoved(Flagged(ctx).times)
  {
    FlaggedOnce(ctx.times);
  }

  lemma RemoveCalms(t0: map<TimerId, Context>, t1: map<TimerId, Context>, id: TimerId)
    requires Calmer(t0, t1)
    ensures Calmer(t0, if id in t1 then t1[id := Flagged(t1[id])] else t1)
  {
    hide SlotCount, IsInfinite;
    if id in t1 {
      FlaggedOnce(t1[id].times);
    }
  }

  /** The effect of one action; `id` is the id that a new timer gets. */
  ghost predicate Acted(a: Action, id: TimerId, wrapped: bool, ts: map<TimerId, Context>, q: seq<TimerId>,
                        ts': map<TimerId, Context>, q': seq<TimerId>)
  {
    match a
    case Repeat(duration, times, serviceid) =>
      && id !in ts && ts' == ts[id := Context(AtLeast(duration), InitialTimes(times), serviceid)]
      && q' == q + if wrapped && FullTurn(a) then [id] else []
    case Remove(x) =>
      ts' == (if x in ts then ts[x := Flagged(ts[x])] else ts) && q' == q
  }

  lemma DidNext(actions: seq<Action>, wrapped: bool, t0: map<TimerId, Context>, q0: seq<TimerId>,
                t1: map<TimerId, Context>, q1: seq<TimerId>, a: Action, id: TimerId,
                t2: map<TimerId, Context>, q2: seq<TimerId>)
    requires Did(actions, wrapped, t0, q0, t1, q1) && Acted(a, id, wrapped, t1, q1, t2, q2)
    ensures Did(actions + [a], wrapped, t0, q0, t2, q2)
  {
    hide Did;
    match a
    case Repeat(_, _, _) => DidRepeat(actions, wrapped, t0, q0, t1, q1, a, id);
    case Remove(x) => DidRemove(actions, wrapped, t0, q0, t1, q1, x, t2);
  }

  /** A handler that asks for a new timer of 255 ticks at every fire call and never removes one. */
  ghost predicate Restless(handler: Handler) {
    && (forall id :: NeverRemoves(handler, id))
    && forall trace: seq<Call> :: trace != [] && !trace[|trace| - 1].remove ==>
         exists a :: a in handler(trace) && FullTurn(a)
  }

  /** What dealing with the timer `id` does to all others and to the list. `fired` says whether it got a fire call. */
  ghost predicate Dealt(handler: Handler, id: TimerId, fired: bool, wrapped: bool, ts: map<TimerId, Context>,
                        q: seq<TimerId>, ts': map<TimerId, Context>, q': seq<TimerId>)
  {
    && q <= q'
    && (forall x :: x in ts && x != id && NeverRemoves(handler, x) ==> x in ts' && ts'[x] == ts[x])
    && (NeverAsksFullTurn(handler) ==> Calmer(ts - {id}, ts' - {id}) && q' == q)
    && (fired && wrapped && Restless(handler) ==> Pursued(ts, ts', q'))
  }

  lemma DealtFrom(handler: Handler, trace: seq<Call>, id: TimerId, wrapped: bool, ts: map<TimerId, Context>,
                  q: seq<TimerId>, ts': map<TimerId, Context>, q': seq<TimerId>)
    requires trace != [] && id in ts && Did(handler(trace), wrapped, ts, q, ts', q')
    ensures Dealt(handler, id, !trace[|trace| - 1].remove, wrapped, ts, q, ts', q')
  {
    hide Turning;
    if Restless(handler) {
      forall x ensures Action.Remove(x) !in handler(trace) {
        assert NeverRemoves(handler, x);
      }
    }
  }

  lemma DealtHand(handler: Handler, id: TimerId, fired: bool, wrapped: bool,
                  t0: map<TimerId, Context>, q0: seq<TimerId>, t1: map<TimerId, Context>, q1: seq<TimerId>,
                  t2: map<TimerId, Context>)
    requires Dealt(handler, id, fired, wrapped, t0, q0, t1, q1) && t2 - {id} == t1 - {id} && id in t0
    ensures Dealt(handler, id, fired, wrapped, t0, q0, t2, q1)
  {
    hide Turning, NeverRemoves, NeverAsksFullTurn, Restless;
    forall x: TimerId | x != id ensures (x in t2 <==> x in t1) && (x in t1 ==> t2[x] == t1[x]) {
      assert x in t2 - {id} <==> x in t1 - {id};
    }
  }

  lemma DealtTransitive(handler: Handler, id: TimerId, fired: bool, fired': bool, wrapped: bool,
                        t0: map<TimerId, Context>, q0: seq<TimerId>, t1: map<TimerId, Context>, q1: seq<TimerId>,
                        t2: map<TimerId, Context>, q2: seq<TimerId>)
    requires Dealt(handler, id, fired, wrapped, t0, q0, t1, q1) && Dealt(handler, id, fired', wrapped, t1, q1, t2, q2)
    requires id in t0
    ensures Dealt(handler, id, fired, wrapped, t0, q0, t2, q2)
  {
    hide Turning, NeverRemoves, NeverAsksFullTurn;
    if fired && wrapped && Restless(handler) {
      var x :| x in q1 && x !in t0 && x in t1 && !IsRemoved(t1[x].times);
      assert NeverRemoves(handler, x);
    }
  }

  // ----- one round -----

  /** An endless timer with a period of 255 ticks that is on the list and that the handler never removes. */
  ghost predicate Stuck(handler: Handler, ts: map<TimerId, Context>, q: seq<TimerId>, id: TimerId) {
    id in q && Endless(ts, id) && NeverRemoves(handler, id)
  }

  /** Some timer on the list will get a fire call. */
  ghost predicate SomeFires(ts: map<TimerId, Context>, q: seq<TimerId>) {
    exists id :: id in q && id in ts && !IsRemoved(ts[id].times)
  }

  /** A round on the list `q`: its first timer is dealt with, the list is `q1` then, and `again` says
      whether the key joins it again. */
  ghost predicate Round(handler: Handler, wrapped: bool, goesOn: bool, again: bool, ts: map<TimerId, Context>,
                        q: seq<TimerId>, ts': map<TimerId, Context>, q1: seq<TimerId>, q': seq<TimerId>)
  {
    && q != [] && q[0] in ts
    && Dealt(handler, q[0], !IsRemoved(ts[q[0]].times), wrapped, ts, q[1..], ts', q1)
    && q' == q1 + (if again then [q[0]] else [])
    && (if goesOn then q[0] in ts' && !IsRemoved(ts[q[0]].times) && OneLess(ts[q[0]], ts'[q[0]]) else q[0] !in ts')
    && (again <==> goesOn && wrapped && ts[q[0]].duration >= PRECISION && SlotCount(ts[q[0]].duration) == SIZE)
    && (Endless(ts, q[0]) && NeverRemoves(handler, q[0]) ==> goesOn && ts'[q[0]] == ts[q[0]])
  }

  /** If the handler never asks for 255 ticks and no endless timer with that period is on the list, fewer rounds are
      left after each round. */
  lemma RoundCounts(handler: Handler, wrapped: bool, goesOn: bool, again: bool, ts: map<TimerId, Context>,
                    q: seq<TimerId>, ts': map<TimerId, Context>, q1: seq<TimerId>, q': seq<TimerId>)
    requires Round(handler, wrapped, goesOn, again, ts, q, ts', q1, q')
    requires NeverAsksFullTurn(handler) && forall x :: x in q ==> !Endless(ts, x)
    ensures TotalRounds(ts', q') < TotalRounds(ts, q) && forall x :: x in q' ==> !Endless(ts', x)
  {
    hide SlotCount, Turning, NeverAsksFullTurn, NeverRemoves, Restless, Pursued;
    TurnOfOne(ts, ts', q[0], goesOn, again);
    RoundDone(ts, q, ts', again);
  }

  /** An endless timer with a period of 255 ticks is still on the list after a round of a wrapping tick. */
  lemma RoundSticks(handler: Handler, wrapped: bool, goesOn: bool, again: bool, ts: map<TimerId, Context>,
                    q: seq<TimerId>, ts': map<TimerId, Context>, q1: seq<TimerId>, q': seq<TimerId>, x: TimerId)
    requires Round(handler, wrapped, goesOn, again, ts, q, ts', q1, q') && wrapped && Stuck(handler, ts, q, x)
    ensures Stuck(handler, ts', q', x)
  {
    hide SlotCount, IsInfinite, NeverRemoves, NeverAsksFullTurn, Restless, Pursued, Calmer;
    if x != q[0] {
      assert x in q[1..];
      assert x in q1;
    }
  }

  /** And so is a timer that will be called, with a handler that asks for another one every time. */
  lemma RoundChases(handler: Handler, wrapped: bool, goesOn: bool, again: bool, ts: map<TimerId, Context>,
                    q: seq<TimerId>, ts': map<TimerId, Context>, q1: seq<TimerId>, q': seq<TimerId>)
    requires Round(handler, wrapped, goesOn, again, ts, q, ts', q1, q')
    requires wrapped && Restless(handler) && SomeFires(ts, q)
    ensures SomeFires(ts', q')
  {
    hide SlotCount, IsInfinite, IsRemoved, NeverAsksFullTurn, Calmer;
    if IsRemoved(ts[q[0]].times) {
      var x :| x in q && x in ts && !IsRemoved(ts[x].times);
      assert NeverRemoves(handler, x) && x in q[1..];
      assert x in q1;
    } else {
      var x :| x in q1 && x !in ts && x in ts' && !IsRemoved(ts'[x].times);
      assert x in q';
    }
  }

  // ----- all rounds -----

  /** The list `q` is never emptied: the tick wraps wheel 0, and either an endless timer with a period of 255 ticks that
      the handler never removes is on the list, or some timer on it will be called and the handler then asks for another
      one with that period. */
  ghost predicate NeverEnds(handler: Handler, wrapped: bool, ts: map<TimerId, Context>, q: seq<TimerId>) {
    wrapped && ((exists id :: Stuck(handler, ts, q, id)) || (Restless(handler) && SomeFires(ts, q)))
  }

  /** The handler never asks for that period, and no endless timer with it is on the list. */
  ghost predicate Calm(handler: Handler, ts: map<TimerId, Context>, q: seq<TimerId>) {
    NeverAsksFullTurn(handler) && forall id :: id in q ==> !Endless(ts, id)
  }

  /** As many rounds as the list has calls to make, if calm; or as it has keys, with the `turns` that join it on a
      wrapping tick. */
  ghost predicate Enough(handler: Handler, wrapped: bool, ts: map<TimerId, Context>, q: seq<TimerId>, turns: int,
                         rounds: nat)
  {
    (Calm(handler, ts, q) && rounds >= TotalRounds(ts, q)) || rounds >= |q| + if wrapped then turns else 0
  }

  /** For a handler that neither asks for the period nor removes a timer on the list, it is never emptied on a wrapping
      tick exactly if an endless timer with the period is on it; otherwise the number of calls to make is enough. */
  lemma EndsIff(handler: Handler, ts: map<TimerId, Context>, q: seq<TimerId>, turns: int, rounds: nat)
    requires NeverAsksFullTurn(handler) && forall id :: id in q ==> NeverRemoves(handler, id)
    ensures NeverEnds(handler, true, ts, q) <==> exists id :: id in q && Endless(ts, id)
    ensures !NeverEnds(handler, true, ts, q) && rounds >= TotalRounds(ts, q) ==>
      Enough(handler, true, ts, q, turns, rounds)
  {
    hide NeverRemoves, SomeFires, TotalRounds, Turning;
    assert !Restless(handler) by {
      var trace := [Call(0, 0, false)];
      assert forall a :: a in handler(trace) ==> !FullTurn(a);
    }
    if id :| id in q && Endless(ts, id) {
      assert Stuck(handler, ts, q, id);
    }
  }
}
