/** The wheels refine the flat machine: every operation on the wheels is one event of a legal flat run, and the
    keys in the wheels stand for exactly the map of pending timers. */
module Refinement {
  import opened Wheels
  import opened WheelTable
  import opened WheelTick
  import opened FlatTimer

  /** Where `update` is: between ticks, or draining a slot of wheel 0. */
  datatype Phase = Between | Draining(slot: nat)

  function Pair(due: map<TimerId, int>, e: Entry): nat {
    if e.0 in due && due[e.0] == e.1 then 1 else 0
  }

  function Keys(ws: Wheels, p: Phase, clock: int, e: Entry): nat
    requires Shaped(ws) && (p.Draining? ==> p.slot < SIZE)
  {
    match p
    case Between => Table(ws, LEVELS, clock, e)
    case Draining(d) => DrainTable(ws, d, clock, e)
  }

  ghost predicate Ordered(ws: Wheels, p: Phase) {
    match p
    case Between => WheelsOk(ws)
    case Draining(d) => DrainOk(ws, d)
  }

  ghost predicate Refines(ws: Wheels, h: seq<Event>, p: Phase) {
    var f := State(h);
    && Legal(h)
    && f.draining == p.Draining?
    && Ordered(ws, p)
    && Base(Heads(ws), 3) == Reading(f.clock, f.draining)
    && (p.Draining? ==> (ws[0].head == 0 <==> f.clock % SIZE == 0))
    && forall e :: Keys(ws, p, f.clock, e) == Pair(f.due, e)
  }

  lemma PairArmed(f: Flat, id: TimerId, n: nat, e: Entry)
    requires id !in f.due && n > 0
    ensures Pair(Apply(f, Armed(id, n)).due, e)
         == Pair(f.due, e) + if Fits(f, n) && e == (id, f.clock + Delay(f, n)) then 1 else 0
  {}

  lemma ArmedPair(heads: seq<nat>, f: Flat, id: TimerId, n: nat, e: Entry)
    requires |heads| == LEVELS && n > 0 && f.draining && Base(heads, 3) == Reading(f.clock, true)
    requires heads[0] == 0 <==> f.clock % SIZE == 0
    ensures AddedNow(heads, id, n, f.clock, e) == if Fits(f, n) && e == (id, f.clock + Delay(f, n)) then 1 else 0
  {}

  lemma ArmBetween(ws: Wheels, h: seq<Event>, id: TimerId, n: nat, e: Entry)
    requires Refines(ws, h, Between) && n > 0 && id !in State(h).due
    ensures Keys(Insert(ws, id, n), Between, State(h).clock, e)
         == Pair(Apply(State(h), Armed(id, n)).due, e)
  {
    hide Legal, State, Table, Added, Base, FindSpot, KeyOk;
    InsertTable(ws, id, n, LEVELS, State(h).clock, e);
    AddedBetween(Heads(ws), id, n, State(h).clock, e);
    PairArmed(State(h), id, n, e);
    assert Keys(ws, Between, State(h).clock, e) == Pair(State(h).due, e);
  }

  lemma ArmDraining(ws: Wheels, h: seq<Event>, d: nat, id: TimerId, n: nat, e: Entry)
    requires Refines(ws, h, Draining(d)) && n > 0 && id !in State(h).due
    ensures DrainOk(Insert(ws, id, n), d)
    ensures Keys(Insert(ws, id, n), Draining(d), State(h).clock, e)
         == Pair(Apply(State(h), Armed(id, n)).due, e)
  {
    var f := State(h);
    assert Keys(ws, Draining(d), f.clock, e) == Pair(f.due, e);
    DrainInsert(ws, d, id, n, f.clock, e);
    PairArmed(f, id, n, e);
    ArmedPair(Heads(ws), f, id, n, e);
  }

  /** Inserting a key is the event of arming a timer, between ticks and inside one. */
  lemma ArmRefines(ws: Wheels, h: seq<Event>, p: Phase, id: TimerId, n: nat)
    requires Refines(ws, h, p) && n > 0 && id !in State(h).due
    ensures Refines(Insert(ws, id, n), h + [Armed(id, n)], p)
  {
    Extend(h, Armed(id, n));
    match p
    case Between =>
      InsertOk(ws, id, n);
      forall e ensures Keys(Insert(ws, id, n), p, State(h).clock, e) == Pair(Apply(State(h), Armed(id, n)).due, e) {
        ArmBetween(ws, h, id, n, e);
      }
    case Draining(d) =>
      ArmDraining(ws, h, d, id, n, (0, 0));
      forall e ensures Keys(Insert(ws, id, n), p, State(h).clock, e) == Pair(Apply(State(h), Armed(id, n)).due, e) {
        ArmDraining(ws, h, d, id, n, e);
      }
      assert Heads(Insert(ws, id, n))[0] == Heads(ws)[0];
  }

  /** `wheels[0].pop_front()` begins a tick. */
  lemma BeginRefines(ws: Wheels, h: seq<Event>)
    requires Refines(ws, h, Between)
    ensures Refines(Pop(ws), h + [TickBegan], Draining(ws[0].head))
  {
    Extend(h, TickBegan);
    var clock := State(h).clock;
    PopOk(ws);
    PopReading(ws, clock);
    forall e ensures Keys(Pop(ws), Draining(ws[0].head), clock + 1, e) == Pair(State(h).due, e) {
      PopTable(ws, clock, e);
    }
  }

  /** Whatever key is taken from the drained slot belongs to a timer that is due now. */
  lemma FireRefines(ws: Wheels, h: seq<Event>, d: nat)
    requires Refines(ws, h, Draining(d)) && ws[0].slots[d] != []
    ensures var keys := ws[0].slots[d];
            && Enabled(State(h), Fired(KeyId(keys[0])))
            && Refines(SetFront(ws, d, keys[1..]), h + [Fired(KeyId(keys[0]))], Draining(d))
  {
    var keys, f := ws[0].slots[d], State(h);
    var id, ws' := KeyId(keys[0]), SetFront(ws, d, keys[1..]);
    TakeFront(ws, d, f.clock, (id, f.clock));
    assert Keys(ws, Draining(d), f.clock, (id, f.clock)) == Pair(f.due, (id, f.clock));
    Extend(h, Fired(id));
    forall e ensures Keys(ws', Draining(d), f.clock, e) == Pair(f.due - {id}, e) {
      TakeFront(ws, d, f.clock, e);
      assert Keys(ws, Draining(d), f.clock, e) == Pair(f.due, e);
    }
    assert Heads(ws')[0] == Heads(ws)[0];
  }

  /** When the slot is empty no timer is due on this tick any more, and the cascade restores the order of the
      wheels without touching any timer. */
  lemma EndRefines(ws: Wheels, h: seq<Event>, d: nat)
    requires Refines(ws, h, Draining(d)) && ws[0].slots[d] == []
    ensures WheelsOk(ws)
    ensures Refines(Cascade(ws, 0), h + [TickEnded], Between)
  {
    var f := State(h);
    DrainEnd(ws, d, f.clock, (0, 0));
    assert Enabled(f, TickEnded) by {
      forall id | id in f.due ensures f.due[id] != f.clock {
        EndCount(ws, h, d, (id, f.clock));
        NothingDue(ws, Pending(ws, 0), f.clock, (id, f.clock));
      }
    }
    Extend(h, TickEnded);
    CascadeOk(ws, 0);
    DrainEndReading(ws, f.clock);
    forall e ensures Keys(Cascade(ws, 0), Between, f.clock, e) == Pair(f.due, e) {
      EndCount(ws, h, d, e);
      CascadeTable(ws, 0, f.clock, e);
    }
  }

  lemma EndCount(ws: Wheels, h: seq<Event>, d: nat, e: Entry)
    requires Refines(ws, h, Draining(d)) && ws[0].slots[d] == []
    ensures Table(ws, Pending(ws, 0), State(h).clock, e) == Pair(State(h).due, e)
  {
    DrainEnd(ws, d, State(h).clock, e);
    assert Keys(ws, Draining(d), State(h).clock, e) == Pair(State(h).due, e);
  }
}
