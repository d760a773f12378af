/** The reference machine that the wheels stand in for: a clock and a map from timer id to due tick. */
module FlatTimer {
  import opened Wheels
  import opened WheelTick

  datatype Flat = Flat(clock: nat, draining: bool, due: map<TimerId, int>)

  datatype Event =
    | Armed(id: TimerId, n: nat)  // a timer was asked to fire in n ticks
    | TickBegan
    | Fired(id: TimerId)
    | TickEnded

  /** Whether a delay of `n` ticks is accepted at all; a delay that is not is dropped silently. */
  predicate Fits(f: Flat, n: nat) {
    n - 1 + Reading(f.clock, f.draining) < CAPACITY
  }

  /** `n` between ticks, and `n` or `n - 255` during a tick that wraps wheel 0. */
  function Delay(f: Flat, n: nat): nat {
    DrainDelay(f.draining && f.clock % SIZE == 0, n)
  }

  predicate Enabled(f: Flat, e: Event) {
    match e
    case Armed(id, n) => id !in f.due && n > 0
    case TickBegan => !f.draining
    case Fired(id) => f.draining && id in f.due && f.due[id] == f.clock
    case TickEnded => f.draining && forall id :: id in f.due ==> f.due[id] != f.clock
  }

  function Apply(f: Flat, e: Event): Flat {
    match e
    case Armed(id, n) => if Fits(f, n) then f.(due := f.due[id := f.clock + Delay(f, n)]) else f
    case TickBegan => f.(clock := f.clock + 1, draining := true)
    case Fired(id) => f.(due := f.due - {id})
    case TickEnded => f.(draining := false)
  }

  function State(h: seq<Event>): Flat {
    if h == [] then Flat(0, false, map[]) else Apply(State(h[..|h| - 1]), h[|h| - 1])
  }

  predicate Legal(h: seq<Event>) {
    h == [] || (Legal(h[..|h| - 1]) && Enabled(State(h[..|h| - 1]), h[|h| - 1]))
  }

  lemma Extend(h: seq<Event>, e: Event)
    ensures State(h + [e]) == Apply(State(h), e)
    ensures Legal(h + [e]) <==> Legal(h) && Enabled(State(h), e)
  {
    var h' := h + [e];
    assert h'[..|h'| - 1] == h && h'[|h'| - 1] == e;
    assert State(h') == Apply(State(h'[..|h'| - 1]), h'[|h'| - 1]);
  }

  predicate OnTime(f: Flat) {
    forall id :: id in f.due ==> f.clock < f.due[id] || (f.draining && f.clock == f.due[id])
  }

  lemma StepOnTime(f: Flat, e: Event)
    requires OnTime(f) && Enabled(f, e)
    ensures OnTime(Apply(f, e))
  {
    match e
    case Armed(id, n) =>
    case TickBegan =>
    case Fired(id) =>
    case TickEnded =>
  }

  /** No timer is ever overdue: whatever is pending is due later, or on the tick being drained. */
  lemma {:induction false} NeverOverdue(h: seq<Event>)
    requires Legal(h)
    ensures OnTime(State(h))
  {
    if h != [] {
      NeverOverdue(h[..|h| - 1]);
      StepOnTime(State(h[..|h| - 1]), h[|h| - 1]);
    }
  }

  ghost predicate FiredAt(h: seq<Event>, i: nat, j: nat, id: TimerId, due: int) {
    && i < j < |h| && h[j] == Fired(id)
    && State(h[..j]).draining && State(h[..j]).clock == due
    && forall k :: i < k < j ==> h[k] != Fired(id)
  }

  ghost predicate Waiting(h: seq<Event>, i: nat, id: TimerId, due: int) {
    var f := State(h);
    && (forall k :: i < k < |h| ==> h[k] != Fired(id))
    && id in f.due && f.due[id] == due
    && (f.clock < due || (f.clock == due && f.draining))
  }

  /** In every legal run an accepted timer first fires while exactly its due tick is drained, and until that tick
      has ended it is pending: it is never early, late or lost. */
  lemma {:induction false} FiresOnTime(h: seq<Event>, i: nat)
    requires Legal(h) && i < |h| && h[i].Armed? && Fits(State(h[..i]), h[i].n)
    ensures var f := State(h[..i]);
            var due := f.clock + Delay(f, h[i].n);
            Waiting(h, i, h[i].id, due) || exists j :: FiredAt(h, i, j, h[i].id, due)
    decreases |h|
  {
    hide Apply, Enabled, Fits, Delay;
    var n := |h| - 1;
    var g := h[..n];
    var f := State(h[..i]);
    var id, due := h[i].id, f.clock + Delay(f, h[i].n);
    if i == n {
      WaitsAtFirst(h);
    } else {
      assert g[..i] == h[..i];
      FiresOnTime(g, i);
      if j: nat :| FiredAt(g, i, j, id, due) {
        assert h[..j] == g[..j];
        assert FiredAt(h, i, j, id, due);
      } else {
        WaitsOrFires(h, i, id, due);
      }
    }
  }

  lemma WaitsAtFirst(h: seq<Event>)
    requires Legal(h) && h != [] && h[|h| - 1].Armed? && Fits(State(h[..|h| - 1]), h[|h| - 1].n)
    ensures var f, e := State(h[..|h| - 1]), h[|h| - 1];
            Waiting(h, |h| - 1, e.id, f.clock + Delay(f, e.n))
  {
    hide Fits, Delay;
    NeverOverdue(h);
  }

  /** What is pending is still so after one more event, or is taken by it, on its tick. */
  lemma WaitsOrFires(h: seq<Event>, i: nat, id: TimerId, due: int)
    requires Legal(h) && i < |h| - 1 && Waiting(h[..|h| - 1], i, id, due)
    ensures Waiting(h, i, id, due) || FiredAt(h, i, |h| - 1, id, due)
  {
    hide Fits, Delay;
    NeverOverdue(h);
  }

  /** The delay asked for is the delay given exactly when it fits the wheels and is not a delay of 255 ticks or more
      that is asked for while a tick that wraps wheel 0 is being drained. */
  lemma DelayAsAsked(f: Flat, id: TimerId, n: nat)
    requires id !in f.due && n > 0
    ensures var due := Apply(f, Armed(id, n)).due;
            (id in due && due[id] == f.clock + n)
            <==> Fits(f, n) && !(f.draining && f.clock % SIZE == 0 && n >= SIZE)
  {}

  /** `h` and then `k` ticks in which nothing happens. */
  function Quiet(h: seq<Event>, k: nat): seq<Event> {
    if k == 0 then h else Quiet(h, k - 1) + [TickBegan] + [TickEnded]
  }

  lemma {:induction false} QuietRun(h: seq<Event>, k: nat)
    requires Legal(h) && !State(h).draining && forall id :: id in State(h).due ==> State(h).due[id] > State(h).clock + k
    ensures Legal(Quiet(h, k)) && State(Quiet(h, k)) == State(h).(clock := State(h).clock + k)
  {
    hide State, Legal;
    if k > 0 {
      QuietRun(h, k - 1);
      Extend(Quiet(h, k - 1), TickBegan);
      Extend(Quiet(h, k - 1) + [TickBegan], TickEnded);
    }
  }

  /** The deviation happens: a handler that is called on tick 255, for a timer armed for 255 ticks at the start, asks
      for 3000 ms and is given 450 ms. */
  lemma EarlyExample()
    ensures var h := Quiet([Armed(1, 255)], 254) + [TickBegan] + [Fired(1)] + [Armed(7, 300)];
            Legal(h) && State(h).clock == 255 && State(h).due == map[7 := 255 + 45]
  {
    assert Legal([]) && State([]) == Flat(0, false, map[]);
    hide State, Legal, Quiet;
    Extend([], Armed(1, 255));
    assert [] + [Armed(1, 255)] == [Armed(1, 255)];
    assert State([Armed(1, 255)]) == Flat(0, false, map[1 := 255]);
    QuietRun([Armed(1, 255)], 254);
    EarlyAfter(Quiet([Armed(1, 255)], 254));
  }

  lemma EarlyAfter(h: seq<Event>)
    requires Legal(h) && State(h) == Flat(254, false, map[1 := 255])
    ensures var h' := h + [TickBegan] + [Fired(1)] + [Armed(7, 300)];
            Legal(h') && State(h').clock == 255 && State(h').due == map[7 := 255 + 45]
  {
    hide State, Legal;
    Extend(h, TickBegan);
    assert State(h + [TickBegan]) == Flat(255, true, map[1 := 255]);
    Extend(h + [TickBegan], Fired(1));
    assert State(h + [TickBegan] + [Fired(1)]) == Flat(255, true, map[]);
    Extend(h + [TickBegan] + [Fired(1)], Armed(7, 300));
  }

  /** So does the loss: on the last tick before wheel 3 wraps a timer of 17,000,000 ticks is accepted and forgotten. */
  lemma LostExample()
    ensures var h := Quiet([], 4228250624) + [Armed(7, 17_000_000)];
            Legal(h) && State(h).due == map[]
  {
    assert Legal([]) && State([]) == Flat(0, false, map[]);
    hide State, Legal, Quiet;
    QuietRun([], 4228250624);
    Extend(Quiet([], 4228250624), Armed(7, 17_000_000));
  }
}
