/** One timer of `worker_timer` as values: the flag bits of its record, the calls it receives, and the ticks on which it
    receives them. */
module TimerBook {
  import opened Wheels
  import opened WheelTick

  const PRECISION: int := 10
  const TIMES_MASK: nat := 0xFFF_FFFF

  /** int32 values for which adding PRECISION does not overflow. */
  type Duration = d: int | -0x8000_0000 <= d < 0x7FFF_FFF6

  /** int32 values below `times_mask`, as `repeat` asserts. */
  type Times = t: int | -0x8000_0000 <= t < TIMES_MASK

  /** The number of ticks `insert_timer` computes from a duration. */
  function SlotCount(duration: Duration): (n: nat)
    requires duration >= 0
    ensures n > 0
    ensures duration > 0 ==> PRECISION * (n - 1) < duration <= PRECISION * n
  {
    var diff := if duration % PRECISION > 0 then duration + PRECISION else duration;
    if diff / PRECISION > 0 then diff / PRECISION else 1
  }

  // ----- flag bits of times_; module Packing proves that these are the bit operations of the source -----

  const REMOVED: nat := 0x2000_0000
  const INFINITE: nat := 0x4000_0000

  predicate IsRemoved(times: nat) { times / REMOVED % 2 == 1 }

  predicate IsInfinite(times: nat) { times / INFINITE % 2 == 1 }

  function Counter(times: nat): nat { times % 0x1000_0000 }

  function SetRemoved(times: nat): nat {
    if IsRemoved(times) then times else times + REMOVED
  }

  /** An int32 with only the two flags above the counter. */
  predicate TimesOk(times: nat) {
    times < 0x8000_0000 && times % REMOVED < 0x1000_0000
  }

  /** Flags and counter do not disturb each other. */
  lemma FlagsApart(times: nat)
    requires TimesOk(times)
    ensures TimesOk(SetRemoved(times)) && IsRemoved(SetRemoved(times))
    ensures IsInfinite(SetRemoved(times)) == IsInfinite(times) && Counter(SetRemoved(times)) == Counter(times)
    ensures Counter(times) > 0 ==>
              && TimesOk(times - 1) && Counter(times - 1) == Counter(times) - 1
              && IsRemoved(times - 1) == IsRemoved(times) && IsInfinite(times - 1) == IsInfinite(times)
  {
    var high, low := times / REMOVED, times % REMOVED;
    FlagParts(high, low);
    assert times == REMOVED * high + low;
    if !IsRemoved(times) {
      FlagParts(high + 1, low);
    }
    if low > 0 {
      FlagParts(high, low - 1);
    }
  }

  lemma FlagParts(high: nat, low: nat)
    requires high < 4 && low < 0x1000_0000
    ensures var times := REMOVED * high + low;
      && TimesOk(times) && Counter(times) == low
      && (IsRemoved(times) <==> high % 2 == 1) && (IsInfinite(times) <==> high / 2 == 1)
  {}

  datatype Context = Context(duration: Duration, times: nat, serviceid: nat)

  /** One call of the `on_timer_` handler. */
  datatype Call = Call(id: TimerId, serviceid: nat, remove: bool)

  /** What a handler may do to the timers while it runs. */
  datatype Action =
    | Repeat(duration: Duration, times: Times, serviceid: nat)
    | Remove(id: TimerId)

  /** An arbitrary handler: its actions may depend on every call it has received. */
  type Handler = seq<Call> -> seq<Action>

  /** The duration `repeat` uses for the one it is asked for. */
  function AtLeast(duration: Duration): (d: Duration)
    ensures d >= PRECISION && d >= duration && (d == PRECISION || d == duration)
  {
    if duration < PRECISION then PRECISION else duration
  }

  /** A request for a period of exactly 255 ticks, a full turn of wheel 0. */
  predicate FullTurn(a: Action) {
    a.Repeat? && SlotCount(AtLeast(a.duration)) == SIZE
  }

  ghost predicate NeverRemoves(handler: Handler, id: TimerId) {
    forall trace: seq<Call> :: Action.Remove(id) !in handler(trace)
  }

  ghost predicate NeverAsksFullTurn(handler: Handler) {
    forall trace: seq<Call>, a: Action :: a in handler(trace) ==> !FullTurn(a)
  }

  /** The counter and flags that `repeat` starts a timer with. */
  function InitialTimes(times: Times): nat {
    if times <= 0 then INFINITE else times
  }

  /** `times_ - 1` */
  function Decremented(ctx: Context): (c: Context)
    requires ctx.times > 0
    ensures c.duration == ctx.duration && c.serviceid == ctx.serviceid
  {
    ctx.(times := ctx.times - 1)
  }

  /** The record after a fire call. */
  function CountedDown(ctx: Context): Context {
    if IsInfinite(ctx.times) || ctx.times == 0 then ctx else Decremented(ctx)
  }

  predicate GoesOn(ctx: Context) {
    IsInfinite(ctx.times) || Counter(ctx.times) > 0
  }

  /** One call less to make, unless there is no end to them. */
  ghost predicate OneLess(ctx: Context, ctx': Context) {
    && ctx'.duration == ctx.duration && IsInfinite(ctx'.times) == IsInfinite(ctx.times)
    && (!IsInfinite(ctx.times) ==> Counter(ctx'.times) == Counter(ctx.times) - 1 > 0)
  }

  function Flagged(ctx: Context): Context {
    ctx.(times := SetRemoved(ctx.times))
  }

  // ----- calls and when they are due -----

  /** A call with the tick on which it was made. */
  datatype Logged = Logged(call: Call, tick: nat)

  /** A call as the timer's owner sees it: fire call or remove call, and when. */
  datatype Heard = Heard(remove: bool, tick: nat)

  /** The calls for `id` from position `from` on. */
  function CallsOf(log: seq<Logged>, id: TimerId, from: nat): seq<Heard>
    requires from <= |log|
    decreases |log|
  {
    if |log| == from then []
    else
      var last := log[|log| - 1];
      CallsOf(log[..|log| - 1], id, from) + if last.call.id == id then [Heard(last.call.remove, last.tick)] else []
  }

  lemma CallsAppend(log: seq<Logged>, last: Logged, id: TimerId, from: nat)
    requires from <= |log|
    ensures CallsOf(log + [last], id, from)
         == CallsOf(log, id, from) + if last.call.id == id then [Heard(last.call.remove, last.tick)] else []
  {
    assert (log + [last])[..|log|] == log;
  }

  /** What a timer is asked for with: the milliseconds, the times (endless if not positive) and whom to call. */
  datatype Request = Request(asked: Duration, quota: int, serviceid: nat)

  /** That, and the period in ticks that came of it, the tick of the creation and whether a tick that wraps wheel 0 was
      being drained, and where the timer's calls start. */
  datatype Creation = Creation(
    id: TimerId, asked: Duration, quota: int, serviceid: nat, n: nat, born: nat, wrapped: bool, from: nat)

  /** The period is the time asked for in whole ticks, rounded up; one tick if that is less. */
  predicate PeriodAsAsked(c: Creation) {
    && (c.asked <= PRECISION ==> c.n == 1)
    && (c.asked > PRECISION ==> PRECISION * (c.n - 1) < c.asked <= PRECISION * c.n)
  }

  /** A timer: the number of fire calls it had received when it was removed, and where its calls end. Both are negative
      as long as that has not happened. */
  datatype Life = Life(made: Creation, stopped: int, until: int)

  /** The tick of the `k`-th fire call, counted from 0, or of the remove call in its place. */
  function DueTick(c: Creation, k: nat): nat {
    if k == 0 then c.born + DrainDelay(c.wrapped, c.n)
    else
      var last := DueTick(c, k - 1);
      last + DrainDelay(last % SIZE == 0, c.n)
  }

  /** k + 1 periods after the creation. */
  function Planned(c: Creation, k: nat): nat {
    c.born + (k + 1) * c.n
  }

  /** No arming before the `k`-th fire call is planned for a wrapping tick with a period of 255 ticks or more. */
  ghost predicate Undisturbed(c: Creation, k: nat) {
    c.n < SIZE || (!c.wrapped && forall i: nat :: i < k ==> Planned(c, i) % SIZE != 0)
  }

  lemma PlannedNext(c: Creation, k: nat)
    ensures Planned(c, 0) == c.born + c.n && Planned(c, k + 1) == Planned(c, k) + c.n
  {}

  /** The `k`-th call comes k + 1 periods after the creation exactly if no arming before it met a wrapping tick with a
      period of 255 ticks or more; otherwise it comes earlier, never later. */
  lemma {:induction false} EvenTicks(c: Creation, k: nat)
    ensures DueTick(c, k) <= Planned(c, k)
    ensures DueTick(c, k) == Planned(c, k) <==> Undisturbed(c, k)
  {
    hide Planned;
    PlannedNext(c, k - if k > 0 then 1 else 0);
    if k > 0 {
      EvenTicks(c, k - 1);
      EvenStep(c, k);
    }
  }

  lemma EvenStep(c: Creation, k: nat)
    requires k > 0 && DueTick(c, k - 1) <= Planned(c, k - 1)
    requires DueTick(c, k - 1) == Planned(c, k - 1) <==> Undisturbed(c, k - 1)
    ensures DueTick(c, k) <= Planned(c, k - 1) + c.n
    ensures DueTick(c, k) == Planned(c, k - 1) + c.n <==> Undisturbed(c, k)
  {
    hide Planned;
    assert Undisturbed(c, k) <==> Undisturbed(c, k - 1) && (c.n < SIZE || Planned(c, k - 1) % SIZE != 0);
  }

  lemma {:induction false} DueTicksAscend(c: Creation, j: nat, k: nat)
    requires j <= k
    ensures DueTick(c, j) <= DueTick(c, k)
  {
    if j < k {
      DueTicksAscend(c, j, k - 1);
    }
  }

  /** Fire calls only, each on its due tick. */
  ghost predicate OnSchedule(c: Creation, calls: seq<Heard>) {
    forall j :: 0 <= j < |calls| ==> calls[j] == Heard(false, DueTick(c, j))
  }

  /** The record of a timer agrees with the number of fire calls it has received. */
  ghost predicate CountsFires(times: nat, life: Life, fires: int) {
    && TimesOk(times)
    && (IsInfinite(times) <==> life.made.quota <= 0)
    && (life.made.quota > 0 ==> Counter(times) + fires == life.made.quota && Counter(times) > 0)
    && (IsRemoved(times) <==> life.stopped >= 0)
    && (life.stopped >= 0 ==> life.stopped == fires)
  }

  ghost predicate LifeOk(ctx: Context, life: Life, log: seq<Logged>) {
    && life.made.from <= |log|
    && OnSchedule(life.made, CallsOf(log, life.made.id, life.made.from))
    && CountsFires(ctx.times, life, |CallsOf(log, life.made.id, life.made.from)|)
  }

  /** A timer that is gone received fire calls and then exactly one remove call: as many fire calls as it was created
      for if nobody removed it, and otherwise none after its removal. */
  ghost predicate EndedOk(life: Life, log: seq<Logged>) {
    && life.made.from <= life.until <= |log|
    && var calls := CallsOf(log[..life.until], life.made.id, life.made.from);
       GoneAfter(life, calls)
  }

  ghost predicate GoneAfter(life: Life, calls: seq<Heard>) {
    var fires := |calls| - 1;
    && fires >= 0 && OnSchedule(life.made, calls[..fires])
    && calls[fires] == Heard(true, LastTick(life.made, fires))
    && (life.stopped < 0 ==> life.made.quota > 0 && fires == life.made.quota)
    && (life.stopped >= 0 ==> fires == life.stopped && (life.made.quota > 0 ==> fires <= life.made.quota))
  }

  /** The tick of the remove call after `fires` fire calls: that of the last fire call if it used up the quota, and
      otherwise the one on which the next would have been due. */
  function LastTick(c: Creation, fires: nat): nat {
    if c.quota > 0 && fires == c.quota then DueTick(c, fires - 1) else DueTick(c, fires)
  }

  /** The number of fire calls among the calls of a timer. */
  function Fires(calls: seq<Heard>): nat {
    if calls == [] then 0 else Fires(calls[..|calls| - 1]) + if calls[|calls| - 1].remove then 0 else 1
  }

  lemma {:induction false} FiresAll(c: Creation, calls: seq<Heard>)
    requires OnSchedule(c, calls)
    ensures Fires(calls) == |calls|
  {
    if calls != [] {
      FiresAll(c, calls[..|calls| - 1]);
    }
  }

  /** What a handler can do to a timer that already exists: flag it as removed, once. */
  ghost predicate Kept(ctx: Context, life: Life, ctx': Context, life': Life, fires: nat) {
    || (ctx' == ctx && life' == life)
    || (!IsRemoved(ctx.times) && ctx' == Flagged(ctx) && life' == life.(stopped := fires))
  }

  lemma FlaggedOnce(times: nat)
    ensures IsRemoved(SetRemoved(times))
  {}

  lemma CountFacts(times: nat, life: Life, fires: nat)
    requires CountsFires(times, life, fires)
    ensures IsRemoved(times) ==> life.stopped == fires && (life.made.quota > 0 ==> fires < life.made.quota)
    ensures !IsRemoved(times) ==> life.stopped < 0
    ensures IsInfinite(times) <==> life.made.quota <= 0
    ensures !IsInfinite(times) ==> Counter(times) > 0 && Counter(times) + fires == life.made.quota
  {}

  /** A fire call and the decrement after it keep the counter in step with the number of fire calls. */
  lemma AfterFire(ctx: Context, life: Life, ctx': Context, life': Life, fires: nat)
    requires CountsFires(ctx.times, life, fires) && !IsRemoved(ctx.times)
    requires Kept(ctx, life, ctx', life', fires + 1)
    ensures life'.made == life.made && ctx'.duration == ctx.duration && ctx'.serviceid == ctx.serviceid
    ensures IsInfinite(ctx'.times) == IsInfinite(ctx.times)
    ensures IsInfinite(ctx'.times) ==> CountsFires(ctx'.times, life', fires + 1)
    ensures !IsInfinite(ctx'.times) ==>
      && ctx'.times > 0 && Counter(ctx'.times - 1) == Counter(ctx.times) - 1
      && IsRemoved(ctx'.times - 1) == IsRemoved(ctx'.times) && IsInfinite(ctx'.times - 1) == IsInfinite(ctx'.times)
      && if Counter(ctx'.times - 1) > 0 then CountsFires(ctx'.times - 1, life', fires + 1)
         else life.made.quota == fires + 1 && (life'.stopped < 0 || life'.stopped == fires + 1)
  {
    FlagsApart(ctx.times);
    FlagsApart(ctx'.times);
  }

  lemma FireCall(log: seq<Logged>, c: Creation, sid: nat, tick: nat)
    requires c.from <= |log| && OnSchedule(c, CallsOf(log, c.id, c.from))
    requires tick == DueTick(c, |CallsOf(log, c.id, c.from)|)
    ensures var calls := CallsOf(log + [Logged(Call(c.id, sid, false), tick)], c.id, c.from);
            OnSchedule(c, calls) && |calls| == |CallsOf(log, c.id, c.from)| + 1 && Fires(calls) == |calls|
  {
    var last := Logged(Call(c.id, sid, false), tick);
    CallsAppend(log, last, c.id, c.from);
    FiresAll(c, CallsOf(log + [last], c.id, c.from));
  }

  lemma RemoveCall(log: seq<Logged>, c: Creation, sid: nat, tick: nat)
    requires c.from <= |log| && OnSchedule(c, CallsOf(log, c.id, c.from))
    ensures var calls := CallsOf(log + [Logged(Call(c.id, sid, true), tick)], c.id, c.from);
            && calls == CallsOf(log, c.id, c.from) + [Heard(true, tick)]
            && Fires(calls) == |calls| - 1
  {
    var last := Logged(Call(c.id, sid, true), tick);
    CallsAppend(log, last, c.id, c.from);
    FiresAll(c, CallsOf(log, c.id, c.from));
    var calls := CallsOf(log + [last], c.id, c.from);
    assert calls[..|calls| - 1] == CallsOf(log, c.id, c.from);
  }

  /** What a fire call leaves behind, whatever the handler did meanwhile: the timer is to go on, or it has received
      exactly its quota of calls. */
  lemma FireOutcome(log: seq<Logged>, tick: nat, ctx: Context, life: Life, ctx': Context, life': Life)
    requires LifeOk(ctx, life, log) && !IsRemoved(ctx.times)
    requires tick == DueTick(life.made, |CallsOf(log, life.made.id, life.made.from)|)
    requires var log' := log + [Logged(Call(life.made.id, ctx.serviceid, false), tick)];
      Kept(ctx, life, ctx', life', Fires(CallsOf(log', life.made.id, life.made.from)))
    ensures life'.made == life.made && ctx'.duration == ctx.duration && ctx'.serviceid == ctx.serviceid
    ensures IsInfinite(ctx'.times) == IsInfinite(ctx.times)
    ensures var log' := log + [Logged(Call(life.made.id, ctx.serviceid, false), tick)];
      var fires := |CallsOf(log', life.made.id, life.made.from)|;
      && OnSchedule(life.made, CallsOf(log', life.made.id, life.made.from))
      && fires == |CallsOf(log, life.made.id, life.made.from)| + 1
      && (IsInfinite(ctx'.times) ==> LifeOk(ctx', life', log'))
      && (!IsInfinite(ctx'.times) ==>
           && ctx'.times > 0 && Counter(Decremented(ctx').times) == Counter(ctx.times) - 1
           && IsRemoved(Decremented(ctx').times) == IsRemoved(ctx'.times)
           && IsInfinite(Decremented(ctx').times) == IsInfinite(ctx'.times)
           && (if Counter(Decremented(ctx').times) > 0 then LifeOk(Decremented(ctx'), life', log')
               else life.made.quota > 0 && fires == life.made.quota && (life'.stopped < 0 || life'.stopped == fires)))
  {
    hide DueTick, CallsOf, Fires, SetRemoved, IsRemoved, IsInfinite, Counter, TimesOk;
    var fires := |CallsOf(log, life.made.id, life.made.from)|;
    CountFacts(ctx.times, life, fires);
    FireCall(log, life.made, ctx.serviceid, tick);
    AfterFire(ctx, life, ctx', life', fires);
  }

  /** After the remove call the timer is gone in order. */
  lemma GoneInOrder(log: seq<Logged>, life: Life, sid: nat, tick: nat, life': Life)
    requires life.made.from <= |log| && OnSchedule(life.made, CallsOf(log, life.made.id, life.made.from))
    requires var fires := |CallsOf(log, life.made.id, life.made.from)|;
      && tick == LastTick(life.made, fires)
      && (life.made.quota > 0 ==> fires <= life.made.quota)
      && (if life.stopped < 0 then life.made.quota > 0 && fires == life.made.quota else life.stopped == fires)
    requires var log' := log + [Logged(Call(life.made.id, sid, true), tick)];
      && life'.made == life.made && life'.until == |log'|
      && (life'.stopped == life.stopped
          || (life.stopped < 0 && life'.stopped == Fires(CallsOf(log', life.made.id, life.made.from))))
    ensures EndedOk(life', log + [Logged(Call(life.made.id, sid, true), tick)])
  {
    var log' := log + [Logged(Call(life.made.id, sid, true), tick)];
    RemoveCall(log, life.made, sid, tick);
    assert log'[..|log'|] == log';
    var calls := CallsOf(log', life.made.id, life.made.from);
    assert calls[..|calls| - 1] == CallsOf(log, life.made.id, life.made.from);
  }
}
