/** The table of timers together with everything that ever happened to them: every timer that was created, in order, and
    every call the handler received. The wheels enter only through the flat history they refine. */
module Ledgers {
  import opened Wheels
  import opened FlatTimer
  import opened TimerBook

  /** `current` says which of the `lives` is that of a timer in the table. */
  datatype Ledger = Ledger(
    timers: map<TimerId, Context>, current: map<TimerId, nat>, lives: seq<Life>, log: seq<Logged>)

  ghost predicate Listed(b: Ledger, id: TimerId) {
    && id in b.timers && id in b.current && b.current[id] < |b.lives|
    && b.lives[b.current[id]].made.id == id && b.lives[b.current[id]].made.from <= |b.log|
  }

  function LifeOf(b: Ledger, id: TimerId): Life
    requires id in b.current && b.current[id] < |b.lives|
  {
    b.lives[b.current[id]]
  }

  /** The calls that the timer which now has this id has received. */
  ghost function HeardBy(b: Ledger, id: TimerId): seq<Heard>
    requires Listed(b, id)
  {
    CallsOf(b.log, id, LifeOf(b, id).made.from)
  }

  /** The record of a timer agrees with the calls it has received, unless it is `busy`, that is, its key has been taken
      out of the wheels and is being dealt with; and a pending key is due when the timer's next call is. */
  ghost predicate EntryOk(id: TimerId, ctx: Context, life: Life, log: seq<Logged>, due: map<TimerId, int>, busy: bool) {
    && life.made.id == id && life.until < 0 && life.made.from <= |log|
    && ctx.serviceid == life.made.serviceid
    && ctx.duration == (if life.made.asked < PRECISION then PRECISION else life.made.asked)
    && life.made.n == SlotCount(ctx.duration)
    && (IsRemoved(ctx.times) <==> life.stopped >= 0)
    && life.stopped <= Fires(CallsOf(log, id, life.made.from))
    && (!busy ==> LifeOk(ctx, life, log))
    && (id in due ==> due[id] == DueTick(life.made, |CallsOf(log, id, life.made.from)|))
  }

  ghost predicate EntriesOk(b: Ledger, due: map<TimerId, int>, hand: set<TimerId>) {
    && b.current.Keys == b.timers.Keys
    && forall id :: id in b.timers ==>
         b.current[id] < |b.lives| && EntryOk(id, b.timers[id], LifeOf(b, id), b.log, due, id in hand)
  }

  /** Every timer ever created is either in the table, under its id, or gone, never both; a gone one is gone in
      order. */
  ghost predicate LivesOk(b: Ledger) {
    forall i :: 0 <= i < |b.lives| ==> LifeKept(b, i)
  }

  /** A timer whose id is used again was gone before the next one was created. */
  predicate Apart(lives: seq<Life>) {
    forall i, j :: 0 <= i < j < |lives| && lives[i].made.id == lives[j].made.id ==>
      0 <= lives[i].until <= lives[j].made.from
  }

  ghost predicate LifeKept(b: Ledger, i: nat)
    requires i < |b.lives|
  {
    var life := b.lives[i];
    PeriodAsAsked(life.made) &&
    if life.until < 0 then life.made.id in b.current && b.current[life.made.id] == i
    else life.until <= |b.log| && EndedOk(life, b.log)
  }

  /** No call is from the future or from nowhere. */
  ghost predicate LogOk(b: Ledger, clock: nat) {
    forall k :: 0 <= k < |b.log| ==> b.log[k].tick <= clock && Owned(b, k)
  }

  /** The `k`-th call was made for a timer that was in the table then, to the service that it was created for. */
  ghost predicate Owned(b: Ledger, k: nat)
    requires k < |b.log|
  {
    exists i :: 0 <= i < |b.lives| && Covers(b.lives[i], b.log[k].call.id, k)
                && b.lives[i].made.serviceid == b.log[k].call.serviceid
  }

  predicate Covers(life: Life, id: TimerId, k: nat) {
    life.made.id == id && life.made.from <= k && (life.until < 0 || k < life.until)
  }

  /** No delay was ever too long for the top wheel. */
  predicate AllPlaced(h: seq<Event>) {
    h == [] ||
    (AllPlaced(h[..|h| - 1]) &&
     (h[|h| - 1].Armed? ==> Fits(State(h[..|h| - 1]), h[|h| - 1].n)))
  }

  /** Keys and table agree. */
  ghost predicate Keyed(b: Ledger, h: seq<Event>, hand: set<TimerId>) {
    && State(h).due.Keys <= b.timers.Keys - hand
    && hand <= b.timers.Keys
    && (AllPlaced(h) ==> b.timers.Keys == State(h).due.Keys + hand)
  }

  ghost predicate Book(b: Ledger, h: seq<Event>, hand: set<TimerId>) {
    && Keyed(b, h, hand)
    && EntriesOk(b, State(h).due, hand)
    && LivesOk(b)
    && LogOk(b, State(h).clock)
    && Apart(b.lives)
  }

  // ----- what can be read off the book -----

  /** An id that is free in the table has no key in the wheels. */
  lemma NotDue(b: Ledger, h: seq<Event>, hand: set<TimerId>, id: TimerId)
    requires Book(b, h, hand) && id !in b.timers
    ensures id !in State(h).due
  {}

  lemma IsListed(b: Ledger, h: seq<Event>, hand: set<TimerId>, id: TimerId)
    requires Book(b, h, hand) && id in b.timers
    ensures Listed(b, id) && LifeOf(b, id).until < 0
    ensures b.timers[id].duration >= PRECISION && LifeOf(b, id).made.n == SlotCount(b.timers[id].duration)
    ensures b.timers[id].serviceid == LifeOf(b, id).made.serviceid
    ensures id !in hand ==> LifeOk(b.timers[id], LifeOf(b, id), b.log) && Fires(HeardBy(b, id)) == |HeardBy(b, id)|
    ensures id in hand ==> id !in State(h).due
    ensures IsRemoved(b.timers[id].times) <==> LifeOf(b, id).stopped >= 0
    ensures LifeOf(b, id).stopped <= Fires(HeardBy(b, id))
  {
    assert EntryOk(id, b.timers[id], LifeOf(b, id), b.log, State(h).due, id in hand);
    if id !in hand {
      FiresAll(LifeOf(b, id).made, HeardBy(b, id));
    }
  }

  // ----- frames -----

  /** An entry depends on the due tick of its own id only. */
  lemma EntryFrame(id: TimerId, ctx: Context, life: Life, log: seq<Logged>, due: map<TimerId, int>,
                   due': map<TimerId, int>, busy: bool)
    requires EntryOk(id, ctx, life, log, due, busy)
    requires id in due' ==> id in due && due'[id] == due[id]
    ensures EntryOk(id, ctx, life, log, due', busy)
  {}

  /** And on the calls of its own id only. */
  lemma EntryLog(id: TimerId, ctx: Context, life: Life, log: seq<Logged>, last: Logged, due: map<TimerId, int>,
                 busy: bool)
    requires EntryOk(id, ctx, life, log, due, busy) && last.call.id != id
    ensures EntryOk(id, ctx, life, log + [last], due, busy)
  {
    CallsAppend(log, last, id, life.made.from);
    assert CallsOf(log + [last], id, life.made.from) == CallsOf(log, id, life.made.from);
  }

  lemma EndedLog(life: Life, log: seq<Logged>, last: Logged)
    requires EndedOk(life, log)
    ensures EndedOk(life, log + [last])
  {
    assert (log + [last])[..life.until] == log[..life.until];
  }

  lemma PlacedExtend(h: seq<Event>, e: Event)
    ensures AllPlaced(h + [e]) <==> AllPlaced(h) && (e.Armed? ==> Fits(State(h), e.n))
  {
    var h' := h + [e];
    assert h'[..|h'| - 1] == h && h'[|h'| - 1] == e;
  }

  lemma KeyedArm(b: Ledger, h: seq<Event>, hand: set<TimerId>, b': Ledger, hand': set<TimerId>, id: TimerId, n: nat)
    requires Keyed(b, h, hand) && id !in State(h).due && n > 0
    requires b'.timers.Keys == b.timers.Keys + {id} && hand' == hand - {id}
    requires id in hand <==> id in b.timers
    ensures Keyed(b', h + [Armed(id, n)], hand')
  {
    hide State, AllPlaced, Delay, Fits;
    Extend(h, Armed(id, n));
    PlacedExtend(h, Armed(id, n));
  }

  /** Calls stay owned as long as no life is cut before them. */
  lemma OwnedStays(b: Ledger, b': Ledger, clock: nat, clock': nat)
    requires LogOk(b, clock) && b'.log == b.log && |b.lives| <= |b'.lives| && clock <= clock'
    requires forall i :: 0 <= i < |b.lives| ==>
               b'.lives[i].made == b.lives[i].made
               && (b'.lives[i].until == b.lives[i].until || (b.lives[i].until < 0 && b'.lives[i].until >= |b.log|))
    ensures LogOk(b', clock')
  {
    forall k | 0 <= k < |b.log| ensures b'.log[k].tick <= clock' && Owned(b', k) {
      assert Owned(b, k);
      var i :| 0 <= i < |b.lives| && Covers(b.lives[i], b.log[k].call.id, k)
        && b.lives[i].made.serviceid == b.log[k].call.serviceid;
      assert Covers(b'.lives[i], b'.log[k].call.id, k);
    }
  }

  // ----- `repeat` and `remove` -----

  /** `repeat` under a free id. */
  function Created(b: Ledger, f: Flat, id: TimerId, ctx: Context, ask: Request, n: nat): Ledger {
    b.(timers := b.timers[id := ctx], current := b.current[id := |b.lives|],
       lives := b.lives + [NewLife(b, f, id, ask, n)])
  }

  function NewLife(b: Ledger, f: Flat, id: TimerId, ask: Request, n: nat): Life {
    var wrapped := f.draining && f.clock % SIZE == 0;
    Life(Creation(id, ask.asked, ask.quota, ask.serviceid, n, f.clock, wrapped, |b.log|), -1, -1)
  }

  /** The record that a request makes. */
  predicate Answers(ctx: Context, ask: Request) {
    && -0x8000_0000 <= ask.quota < TIMES_MASK && ctx.times == InitialTimes(ask.quota)
    && ctx.serviceid == ask.serviceid
    && ctx.duration == if ask.asked < PRECISION then PRECISION else ask.asked
  }

  lemma NewEntry(b: Ledger, f: Flat, id: TimerId, ctx: Context, ask: Request, n: nat)
    requires Answers(ctx, ask) && n == SlotCount(ctx.duration)
    requires id !in f.due
    ensures EntryOk(id, ctx, NewLife(b, f, id, ask, n), b.log, Apply(f, Armed(id, n)).due, false)
  {
    assert CallsOf(b.log, id, |b.log|) == [];
  }

  lemma NewPeriod(b: Ledger, f: Flat, id: TimerId, ctx: Context, ask: Request)
    requires Answers(ctx, ask)
    ensures PeriodAsAsked(NewLife(b, f, id, ask, SlotCount(ctx.duration)).made)
  {}

  lemma IsFree(b: Ledger, h: seq<Event>, hand: set<TimerId>, id: TimerId)
    requires Book(b, h, hand) && id !in b.timers
    ensures id !in b.current && id !in hand && id !in State(h).due
  {}

  lemma BookRepeat(b: Ledger, h: seq<Event>, hand: set<TimerId>, id: TimerId, ctx: Context, ask: Request)
    requires Book(b, h, hand) && id !in b.timers
    requires Answers(ctx, ask)
    ensures Book(Created(b, State(h), id, ctx, ask, SlotCount(ctx.duration)),
                 h + [Armed(id, SlotCount(ctx.duration))], hand)
  {
    hide EntriesOk, LivesOk, LogOk, Keyed, Apart, SlotCount, State, InitialTimes, PeriodAsAsked, Fits, Delay;
    IsFree(b, h, hand, id);
    var n, f := SlotCount(ctx.duration), State(h);
    Extend(h, Armed(id, n));
    KeyedArm(b, h, hand, Created(b, f, id, ctx, ask, n), hand, id, n);
    NewEntry(b, f, id, ctx, ask, n);
    NewPeriod(b, f, id, ctx, ask);
    NewEntries(b, f, hand, id, ctx, ask, n);
    NewLives(b, f, id, ctx, ask, n);
    ApartNew(b, NewLife(b, f, id, ask, n));
  }

  lemma ApartNew(b: Ledger, life: Life)
    requires Apart(b.lives) && LivesOk(b) && life.made.id !in b.current && life.made.from == |b.log|
    ensures Apart(b.lives + [life])
  {
    hide EndedOk;
    forall i | 0 <= i < |b.lives| && b.lives[i].made.id == life.made.id
      ensures 0 <= b.lives[i].until <= life.made.from
    {
      assert LifeKept(b, i);
    }
  }

  lemma NewEntries(b: Ledger, f: Flat, hand: set<TimerId>, id: TimerId, ctx: Context, ask: Request, n: nat)
    requires EntriesOk(b, f.due, hand) && id !in b.timers && id !in f.due && n > 0
    requires EntryOk(id, ctx, NewLife(b, f, id, ask, n), b.log, Apply(f, Armed(id, n)).due, false)
    ensures EntriesOk(Created(b, f, id, ctx, ask, n), Apply(f, Armed(id, n)).due, hand)
  {
    hide EntryOk, Fits, Delay, NewLife;
    var due, b' := Apply(f, Armed(id, n)).due, Created(b, f, id, ctx, ask, n);
    BusyEntry(id, ctx, NewLife(b, f, id, ask, n), b.log, due);
    assert b'.current.Keys == b'.timers.Keys && LifeOf(b', id) == NewLife(b, f, id, ask, n);
    forall x | x in b.timers ensures EntryOk(x, b.timers[x], LifeOf(b, x), b.log, due, x in hand) {
      EntryFrame(x, b.timers[x], LifeOf(b, x), b.log, f.due, due, x in hand);
    }
  }

  lemma NewLives(b: Ledger, f: Flat, id: TimerId, ctx: Context, ask: Request, n: nat)
    requires LivesOk(b) && LogOk(b, f.clock) && id !in b.current && PeriodAsAsked(NewLife(b, f, id, ask, n).made)
    ensures LivesOk(Created(b, f, id, ctx, ask, n)) && LogOk(Created(b, f, id, ctx, ask, n), f.clock)
  {
    hide EndedOk, LogOk;
    var b' := Created(b, f, id, ctx, ask, n);
    OwnedStays(b, b', f.clock, f.clock);
    forall i | 0 <= i < |b'.lives| ensures LifeKept(b', i) {
      assert i < |b.lives| ==> LifeKept(b, i);
    }
  }

  /** `remove` of a timer that is not flagged yet. */
  function Unplugged(b: Ledger, id: TimerId, fires: nat): Ledger
    requires id in b.timers && id in b.current && b.current[id] < |b.lives|
  {
    WithEntry(b, id, Flagged(b.timers[id]), LifeOf(b, id).(stopped := fires))
  }

  lemma FlaggedEntry(id: TimerId, ctx: Context, life: Life, log: seq<Logged>, due: map<TimerId, int>, busy: bool,
                     fires: nat)
    requires EntryOk(id, ctx, life, log, due, busy) && !IsRemoved(ctx.times)
    requires fires == Fires(CallsOf(log, id, life.made.from))
    ensures EntryOk(id, Flagged(ctx), life.(stopped := fires), log, due, busy)
  {
    FlaggedOnce(ctx.times);
    if !busy {
      FiresAll(life.made, CallsOf(log, id, life.made.from));
      FlagsApart(ctx.times);
    }
  }

  lemma BookRemove(b: Ledger, h: seq<Event>, hand: set<TimerId>, id: TimerId, fires: nat)
    requires Book(b, h, hand) && id in b.timers && !IsRemoved(b.timers[id].times)
    requires Listed(b, id) && fires == Fires(HeardBy(b, id))
    ensures Book(Unplugged(b, id, fires), h, hand)
  {
    hide EntryOk, EndedOk, Owned, Apart, State, AllPlaced, IsRemoved, CallsOf, Fires;
    var b', f := Unplugged(b, id, fires), State(h);
    ApartStill(b.lives, b'.lives);
    FlaggedEntry(id, b.timers[id], LifeOf(b, id), b.log, f.due, id in hand, fires);
    assert b'.timers.Keys == b.timers.Keys;
    OwnedStays(b, b', f.clock, f.clock);
    OneChanged(b, id, Flagged(b.timers[id]), LifeOf(b, id).(stopped := fires), f.due, hand);
  }

  function WithEntry(b: Ledger, id: TimerId, ctx: Context, life: Life): Ledger
    requires id in b.current && b.current[id] < |b.lives|
  {
    b.(timers := b.timers[id := ctx], lives := b.lives[b.current[id] := life])
  }

  lemma ApartStill(lives: seq<Life>, lives': seq<Life>)
    requires Apart(lives) && |lives'| == |lives|
    requires forall i :: 0 <= i < |lives| ==> lives'[i].made == lives[i].made && lives'[i].until == lives[i].until
    ensures Apart(lives')
  {}

  lemma OneChanged(b: Ledger, id: TimerId, ctx: Context, life: Life, due: map<TimerId, int>, hand: set<TimerId>)
    requires Listed(b, id) && EntriesOk(b, due, hand) && LivesOk(b)
    requires EntryOk(id, ctx, life, b.log, due, id in hand) && life.made == LifeOf(b, id).made
    ensures EntriesOk(WithEntry(b, id, ctx, life), due, hand) && LivesOk(WithEntry(b, id, ctx, life))
  {
    hide EndedOk, LifeOk, CallsOf, Fires, SlotCount, DueTick, PeriodAsAsked, IsRemoved;
    var b' := WithEntry(b, id, ctx, life);
    assert life.made.id == id && life.until < 0;
    EntryId(b, due, hand, id);
    hide EntryOk;
    forall x | x in b.timers && x != id ensures b.current[x] != b.current[id] {
      EntryId(b, due, hand, x);
    }
    forall i | 0 <= i < |b'.lives| ensures LifeKept(b', i) {
      assert LifeKept(b, i);
    }
  }

  lemma EntryId(b: Ledger, due: map<TimerId, int>, hand: set<TimerId>, id: TimerId)
    requires EntriesOk(b, due, hand) && id in b.timers
    ensures LifeOf(b, id).made.id == id && LifeOf(b, id).until < 0
  {
    assert EntryOk(id, b.timers[id], LifeOf(b, id), b.log, due, id in hand);
  }

  // ----- dealing with a timer -----

  /** The next call of the timer in hand is due now. */
  ghost predicate InHand(b: Ledger, id: TimerId, clock: nat) {
    && Listed(b, id) && LifeOk(b.timers[id], LifeOf(b, id), b.log)
    && clock == DueTick(LifeOf(b, id).made, |HeardBy(b, id)|)
  }

  /** It has just had its call and is to be armed again. */
  ghost predicate ToRearm(b: Ledger, id: TimerId, clock: nat) {
    && Listed(b, id) && LifeOk(b.timers[id], LifeOf(b, id), b.log)
    && |HeardBy(b, id)| > 0 && clock == DueTick(LifeOf(b, id).made, |HeardBy(b, id)| - 1)
  }

  /** It has had its quota of calls, or was removed, and only the remove call is left. */
  ghost predicate AtEnd(b: Ledger, id: TimerId, clock: nat) {
    && Listed(b, id)
    && var life, calls := LifeOf(b, id), HeardBy(b, id);
       && life.until < 0 && OnSchedule(life.made, calls) && clock == LastTick(life.made, |calls|)
       && (life.made.quota > 0 ==> |calls| <= life.made.quota)
       && if life.stopped < 0 then life.made.quota > 0 && |calls| == life.made.quota else life.stopped == |calls|
  }

  // ----- ticks -----

  lemma BookTick(b: Ledger, h: seq<Event>, e: Event)
    requires Book(b, h, {}) && (e.TickBegan? || e.TickEnded?)
    ensures Book(b, h + [e], {})
  {
    hide EntryOk, LivesOk, Owned, Apart, State, AllPlaced;
    Extend(h, e);
    PlacedExtend(h, e);
    OwnedStays(b, b, State(h).clock, Apply(State(h), e).clock);
  }

  /** Whoever's key is taken from the wheels is in the table, and now is when its next call is due. */
  lemma BookFire(b: Ledger, h: seq<Event>, id: TimerId)
    requires Book(b, h, {}) && Enabled(State(h), Fired(id))
    ensures InHand(b, id, State(h).clock)
    ensures Book(b, h + [Fired(id)], {id})
  {
    var f := State(h);
    IsListed(b, h, {}, id);
    assert EntryOk(id, b.timers[id], LifeOf(b, id), b.log, f.due, false);
    hide EntriesOk, LivesOk, LogOk, Apart, State, AllPlaced, LifeOk, DueTick, CallsOf;
    Extend(h, Fired(id));
    PlacedExtend(h, Fired(id));
    assert (f.due - {id}).Keys == f.due.Keys - {id};
    TakenEntries(b, f.due, id);
  }

  lemma TakenEntries(b: Ledger, due: map<TimerId, int>, id: TimerId)
    requires EntriesOk(b, due, {})
    ensures EntriesOk(b, due - {id}, {id})
  {
    hide EntryOk;
    forall x | x in b.timers ensures EntryOk(x, b.timers[x], LifeOf(b, x), b.log, due - {id}, x in {id}) {
      EntryFrame(x, b.timers[x], LifeOf(b, x), b.log, due, due - {id}, false);
      BusyEntry(x, b.timers[x], LifeOf(b, x), b.log, due - {id});
    }
  }

  lemma BusyEntry(id: TimerId, ctx: Context, life: Life, log: seq<Logged>, due: map<TimerId, int>)
    requires EntryOk(id, ctx, life, log, due, false)
    ensures EntryOk(id, ctx, life, log, due, true)
  {}

  // ----- the timer in hand -----

  function Called(b: Ledger, call: Call, tick: nat): Ledger {
    b.(log := b.log + [Logged(call, tick)])
  }

  /** A call for the timer in hand leaves all other records alone. */
  lemma BookCall(b: Ledger, h: seq<Event>, call: Call)
    requires Book(b, h, {call.id}) && b.timers[call.id].serviceid == call.serviceid
    ensures Book(Called(b, call, State(h).clock), h, {call.id})
  {
    var f := State(h);
    var id, last := call.id, Logged(call, f.clock);
    IsListed(b, h, {id}, id);
    hide EntriesOk, LivesOk, Keyed, LogOk, Apart, State;
    OwnedLog(b, last, id);
    CalledEntries(b, f.due, id, last);
    CalledLives(b, last);
  }

  lemma CalledEntries(b: Ledger, due: map<TimerId, int>, id: TimerId, last: Logged)
    requires EntriesOk(b, due, {id}) && id in b.timers && id !in due && last.call.id == id
    ensures EntriesOk(b.(log := b.log + [last]), due, {id})
  {
    hide EntryOk;
    BusyLog(id, b.timers[id], LifeOf(b, id), b.log, last, due);
    forall x | x in b.timers ensures EntryOk(x, b.timers[x], LifeOf(b, x), b.log + [last], due, x in {id}) {
      if x != id {
        EntryLog(x, b.timers[x], LifeOf(b, x), b.log, last, due, x in {id});
      }
    }
  }

  lemma CalledLives(b: Ledger, last: Logged)
    requires LivesOk(b)
    ensures LivesOk(b.(log := b.log + [last]))
  {
    hide EndedOk;
    forall i | 0 <= i < |b.lives| ensures LifeKept(b.(log := b.log + [last]), i) {
      assert LifeKept(b, i);
      if b.lives[i].until >= 0 {
        EndedLog(b.lives[i], b.log, last);
      }
    }
  }

  lemma BusyLog(id: TimerId, ctx: Context, life: Life, log: seq<Logged>, last: Logged, due: map<TimerId, int>)
    requires EntryOk(id, ctx, life, log, due, true) && id !in due
    ensures EntryOk(id, ctx, life, log + [last], due, true)
  {
    var calls := CallsOf(log, id, life.made.from);
    CallsAppend(log, last, id, life.made.from);
    FiresAppend(calls, Heard(last.call.remove, last.tick));
    assert calls + [] == calls;
  }

  lemma FiresAppend(calls: seq<Heard>, last: Heard)
    ensures Fires(calls) <= Fires(calls + [last])
  {
    assert (calls + [last])[..|calls|] == calls;
  }

  lemma OwnedLog(b: Ledger, last: Logged, id: TimerId)
    requires Listed(b, id) && LifeOf(b, id).until < 0 && LogOk(b, last.tick)
    requires last.call.id == id && last.call.serviceid == LifeOf(b, id).made.serviceid
    ensures LogOk(b.(log := b.log + [last]), last.tick)
  {
    var b' := b.(log := b.log + [last]);
    forall k | 0 <= k < |b'.log| ensures b'.log[k].tick <= last.tick && Owned(b', k) {
      if k < |b.log| {
        assert Owned(b, k);
        var i :| 0 <= i < |b.lives| && Covers(b.lives[i], b.log[k].call.id, k)
        && b.lives[i].made.serviceid == b.log[k].call.serviceid;
        assert Covers(b'.lives[i], b'.log[k].call.id, k);
      } else {
        assert Covers(LifeOf(b, id), id, k);
        assert b.lives[b.current[id]] == LifeOf(b, id);
      }
    }
  }

  /** The record of the timer in hand may change as long as its duration does not. */
  lemma BookHand(b: Ledger, h: seq<Event>, id: TimerId, ctx: Context)
    requires Book(b, h, {id}) && Listed(b, id)
    requires ctx.duration == b.timers[id].duration && ctx.serviceid == b.timers[id].serviceid
    requires IsRemoved(ctx.times) == IsRemoved(b.timers[id].times)
    ensures Book(WithEntry(b, id, ctx, LifeOf(b, id)), h, {id})
  {
    hide EntryOk, EntriesOk, LivesOk, LogOk, Apart, State, AllPlaced;
    var b', f := WithEntry(b, id, ctx, LifeOf(b, id)), State(h);
    EntryAt(b, f.due, {id}, id);
    HandEntry(id, b.timers[id], ctx, LifeOf(b, id), b.log, f.due);
    OneChanged(b, id, ctx, LifeOf(b, id), f.due, {id});
    assert b'.timers.Keys == b.timers.Keys;
    assert b'.lives == b.lives;
    OwnedStays(b, b', f.clock, f.clock);
  }

  lemma EntryAt(b: Ledger, due: map<TimerId, int>, hand: set<TimerId>, id: TimerId)
    requires EntriesOk(b, due, hand) && id in b.timers
    ensures id in b.current && b.current[id] < |b.lives|
    ensures EntryOk(id, b.timers[id], LifeOf(b, id), b.log, due, id in hand)
  {}

  lemma HandEntry(id: TimerId, ctx: Context, ctx': Context, life: Life, log: seq<Logged>, due: map<TimerId, int>)
    requires EntryOk(id, ctx, life, log, due, true)
    requires ctx'.duration == ctx.duration && ctx'.serviceid == ctx.serviceid
    requires IsRemoved(ctx'.times) == IsRemoved(ctx.times)
    ensures EntryOk(id, ctx', life, log, due, true)
  {}

  /** Arming the timer in hand again, on the tick of the call it has just received. */
  lemma BookRearm(b: Ledger, h: seq<Event>, id: TimerId)
    requires Book(b, h, {id}) && State(h).draining && ToRearm(b, id, State(h).clock)
    ensures Book(b, h + [Armed(id, SlotCount(b.timers[id].duration))], {})
  {
    hide EntriesOk, LivesOk, LogOk, Apart, State, Keyed, LifeOk, CallsOf, DueTick, SlotCount, Fits, Delay;
    IsListed(b, h, {id}, id);
    var f, e := State(h), Armed(id, SlotCount(b.timers[id].duration));
    EntryAt(b, f.due, {id}, id);
    RearmedEntry(id, b.timers[id], LifeOf(b, id), b.log, f);
    Extend(h, e);
    KeyedArm(b, h, {id}, b, {}, id, e.n);
    RearmedEntries(b, f, id, e.n);
  }

  lemma RearmedEntries(b: Ledger, f: Flat, id: TimerId, n: nat)
    requires EntriesOk(b, f.due, {id}) && id in b.timers && id !in f.due && n > 0
    requires EntryOk(id, b.timers[id], LifeOf(b, id), b.log, Apply(f, Armed(id, n)).due, false)
    ensures EntriesOk(b, Apply(f, Armed(id, n)).due, {})
  {
    hide EntryOk, Fits, Delay;
    var due := Apply(f, Armed(id, n)).due;
    forall x | x in b.timers ensures EntryOk(x, b.timers[x], LifeOf(b, x), b.log, due, false) {
      if x != id {
        EntryFrame(x, b.timers[x], LifeOf(b, x), b.log, f.due, due, false);
      }
    }
  }

  lemma RearmedEntry(id: TimerId, ctx: Context, life: Life, log: seq<Logged>, f: Flat)
    requires EntryOk(id, ctx, life, log, f.due, true) && id !in f.due && LifeOk(ctx, life, log)
    requires var k := |CallsOf(log, id, life.made.from)|; f.draining && k > 0 && f.clock == DueTick(life.made, k - 1)
    ensures EntryOk(id, ctx, life, log, Apply(f, Armed(id, life.made.n)).due, false)
  {}

  /** The timer in hand leaves the table. */
  function Erased(b: Ledger, id: TimerId): Ledger
    requires id in b.current && b.current[id] < |b.lives|
  {
    b.(timers := b.timers - {id}, current := b.current - {id},
       lives := b.lives[b.current[id] := LifeOf(b, id).(until := |b.log|)])
  }

  lemma BookEnd(b: Ledger, h: seq<Event>, id: TimerId)
    requires Book(b, h, {id}) && Listed(b, id) && EndedOk(LifeOf(b, id).(until := |b.log|), b.log)
    ensures Book(Erased(b, id), h, {})
  {
    IsListed(b, h, {id}, id);
    KeyedErased(b, h, id);
    hide EntriesOk, LivesOk, LogOk, Apart, Keyed, EndedOk, State;
    ApartErased(b, id);
    ErasedEntries(b, State(h).due, id);
    ErasedLives(b, State(h).clock, id);
  }

  lemma KeyedErased(b: Ledger, h: seq<Event>, id: TimerId)
    requires Keyed(b, h, {id}) && id in b.current && b.current[id] < |b.lives|
    ensures Keyed(Erased(b, id), h, {})
  {
    hide State, AllPlaced;
    assert Erased(b, id).timers.Keys == b.timers.Keys - {id};
  }

  lemma ApartErased(b: Ledger, id: TimerId)
    requires Apart(b.lives) && Listed(b, id) && LifeOf(b, id).until < 0
    ensures Apart(Erased(b, id).lives)
  {}

  lemma ErasedEntries(b: Ledger, due: map<TimerId, int>, id: TimerId)
    requires EntriesOk(b, due, {id}) && Listed(b, id)
    ensures EntriesOk(Erased(b, id), due, {})
  {
    hide EntryOk;
    forall x | x in b.timers && x != id ensures b.current[x] != b.current[id] {
      EntryId(b, due, {id}, x);
    }
    var b' := Erased(b, id);
    assert b'.timers.Keys == b.timers.Keys - {id} && b'.current.Keys == b.current.Keys - {id};
  }

  lemma ErasedLives(b: Ledger, clock: nat, id: TimerId)
    requires LivesOk(b) && LogOk(b, clock) && Listed(b, id) && LifeOf(b, id).until < 0
    requires EndedOk(LifeOf(b, id).(until := |b.log|), b.log)
    ensures LivesOk(Erased(b, id)) && LogOk(Erased(b, id), clock)
  {
    hide EndedOk, LogOk;
    var b' := Erased(b, id);
    OwnedStays(b, b', clock, clock);
    forall i | 0 <= i < |b'.lives| ensures LifeKept(b', i) {
      assert LifeKept(b, i);
    }
  }

  // ----- what a handler can do -----

  ghost predicate KeptIn(b: Ledger, b': Ledger, id: TimerId)
    requires Listed(b, id)
  {
    && Listed(b', id) && b'.current[id] == b.current[id]
    && Kept(b.timers[id], LifeOf(b, id), b'.timers[id], LifeOf(b', id), Fires(HeardBy(b, id)))
  }

  /** Whatever happened to the timers of `b`, a handler could do: it may flag each of them once, and create others. */
  ghost predicate AllKept(b: Ledger, b': Ledger) {
    && b'.log == b.log && |b.lives| <= |b'.lives|
    && (forall id :: Listed(b, id) ==> KeptIn(b, b', id))
    && (forall i :: 0 <= i < |b.lives| && b.lives[i].until >= 0 ==> b'.lives[i] == b.lives[i])
  }

  lemma KeptReflexive(b: Ledger)
    ensures AllKept(b, b)
  {}

  lemma KeptCreated(b: Ledger, f: Flat, id: TimerId, ctx: Context, ask: Request, n: nat)
    requires id !in b.timers
    ensures AllKept(b, Created(b, f, id, ctx, ask, n))
  {
    hide CallsOf, Fires;
    forall x | Listed(b, x) ensures KeptIn(b, Created(b, f, id, ctx, ask, n), x) {}
  }

  lemma KeptUnplugged(b: Ledger, id: TimerId)
    requires Listed(b, id) && LifeOf(b, id).until < 0 && !IsRemoved(b.timers[id].times)
    requires forall x :: Listed(b, x) && x != id ==> b.current[x] != b.current[id]
    ensures AllKept(b, Unplugged(b, id, Fires(HeardBy(b, id))))
  {
    hide CallsOf, Fires, IsRemoved, SetRemoved;
    var b' := Unplugged(b, id, Fires(HeardBy(b, id)));
    forall x | Listed(b, x) ensures KeptIn(b, b', x) {}
  }

  lemma AllKeptTransitive(b0: Ledger, b1: Ledger, b2: Ledger)
    requires AllKept(b0, b1) && AllKept(b1, b2)
    ensures AllKept(b0, b2)
  {
    hide CallsOf, Fires, IsRemoved, SetRemoved;
    forall id | Listed(b0, id) ensures KeptIn(b0, b2, id) {
      assert KeptIn(b0, b1, id) && KeptIn(b1, b2, id);
      FlaggedOnce(b0.timers[id].times);
    }
  }

  /** No two timers in the table share a life. */
  lemma OwnIndex(b: Ledger, h: seq<Event>, hand: set<TimerId>, id: TimerId)
    requires Book(b, h, hand) && id in b.timers && Listed(b, id)
    ensures forall x :: Listed(b, x) && x != id ==> b.current[x] != b.current[id]
  {}

  lemma RemovedAtEnd(b: Ledger, id: TimerId, clock: nat)
    requires InHand(b, id, clock) && LifeOf(b, id).until < 0 && IsRemoved(b.timers[id].times)
    ensures AtEnd(b, id, clock)
  {
    CountFacts(b.timers[id].times, LifeOf(b, id), |HeardBy(b, id)|);
  }

  /** What is left of a timer after its last call, whatever the handler did in it. */
  lemma EndsInOrder(b: Ledger, id: TimerId, clock: nat, sid: nat, b': Ledger)
    requires AtEnd(b, id, clock) && AllKept(Called(b, Call(id, sid, true), clock), b')
    requires IsRemoved(b.timers[id].times) <==> LifeOf(b, id).stopped >= 0
    ensures Listed(b', id) && b'.current[id] == b.current[id]
    ensures EndedOk(LifeOf(b', id).(until := |b'.log|), b'.log)
  {
    var b1 := Called(b, Call(id, sid, true), clock);
    assert KeptIn(b1, b', id);
    GoneInOrder(b.log, LifeOf(b, id), sid, clock, LifeOf(b', id).(until := |b'.log|));
  }

  /** What a fire call leaves behind, whatever the handler did in it. */
  lemma FiredInOrder(b: Ledger, id: TimerId, clock: nat, b1: Ledger)
    requires InHand(b, id, clock) && LifeOf(b, id).until < 0 && !IsRemoved(b.timers[id].times)
    requires AllKept(Called(b, Call(id, b.timers[id].serviceid, false), clock), b1)
    ensures Listed(b1, id) && b1.current[id] == b.current[id]
    ensures b1.timers[id] == b.timers[id] || b1.timers[id] == Flagged(b.timers[id])
    ensures var ctx := b1.timers[id];
            && (!IsInfinite(ctx.times) ==> ctx.times > 0)
            && IsInfinite(ctx.times) == IsInfinite(b.timers[id].times)
            && IsRemoved(CountedDown(ctx).times) == IsRemoved(ctx.times)
            && IsInfinite(CountedDown(ctx).times) == IsInfinite(ctx.times)
            && var b' := WithEntry(b1, id, CountedDown(ctx), LifeOf(b1, id));
               if GoesOn(CountedDown(ctx)) then ToRearm(b', id, clock) && OneLess(b.timers[id], CountedDown(ctx))
               else AtEnd(b', id, clock)
  {
    var b0 := Called(b, Call(id, b.timers[id].serviceid, false), clock);
    assert KeptIn(b0, b1, id);
    FireOutcome(b.log, clock, b.timers[id], LifeOf(b, id), b1.timers[id], LifeOf(b1, id));
    hide CallsOf, DueTick, IsRemoved, IsInfinite, Counter, SetRemoved;
    var b' := WithEntry(b1, id, CountedDown(b1.timers[id]), LifeOf(b1, id));
    assert HeardBy(b', id) == HeardBy(b1, id) == CallsOf(b0.log, id, LifeOf(b, id).made.from);
  }

  // ----- nothing is forgotten -----

  /** A timer's creation never changes; what it is stopped at and where its calls end is settled once. */
  ghost predicate Continues(life: Life, life': Life) {
    && life'.made == life.made
    && (life.stopped >= 0 ==> life'.stopped == life.stopped)
    && (life.until >= 0 ==> life' == life)
  }

  ghost predicate Later(b: Ledger, b': Ledger) {
    && b.log <= b'.log && |b.lives| <= |b'.lives|
    && forall i :: 0 <= i < |b.lives| ==> Continues(b.lives[i], b'.lives[i])
  }

  lemma LaterReflexive(b: Ledger)
    ensures Later(b, b)
  {}

  lemma LaterTransitive(b0: Ledger, b1: Ledger, b2: Ledger)
    requires Later(b0, b1) && Later(b1, b2)
    ensures Later(b0, b2)
  {
    forall i | 0 <= i < |b0.lives| ensures Continues(b0.lives[i], b2.lives[i]) {
      assert Continues(b0.lives[i], b1.lives[i]) && Continues(b1.lives[i], b2.lives[i]);
    }
  }

  lemma CalledLater(b: Ledger, call: Call, tick: nat)
    ensures Later(b, Called(b, call, tick))
  {}

  lemma HandLater(b: Ledger, id: TimerId, ctx: Context)
    requires Listed(b, id)
    ensures Later(b, WithEntry(b, id, ctx, LifeOf(b, id)))
  {}

  lemma ErasedLater(b: Ledger, id: TimerId)
    requires Listed(b, id) && LifeOf(b, id).until < 0
    ensures Later(b, Erased(b, id))
  {}

  lemma KeptIsLater(b: Ledger, h: seq<Event>, hand: set<TimerId>, b': Ledger)
    requires Book(b, h, hand) && AllKept(b, b')
    ensures Later(b, b')
  {
    forall i | 0 <= i < |b.lives| && b.lives[i].until < 0 ensures Continues(b.lives[i], b'.lives[i]) {
      assert LifeKept(b, i);
      var id := b.lives[i].made.id;
      IsListed(b, h, hand, id);
      assert KeptIn(b, b', id);
    }
  }
}
