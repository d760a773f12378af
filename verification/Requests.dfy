/** What a handler asks for is carried out: the exact effect of its actions on the ledger, and what a stretch of calls
    leaves behind. */
module Requests {
  import opened Wheels
  import opened FlatTimer
  import opened TimerBook
  import opened Ledgers

  // ----- the exact effect -----

  /** One action; `id` is the id that a new timer gets. */
  ghost function Do(b: Ledger, f: Flat, a: Action, id: TimerId): Ledger {
    match a
    case Repeat(duration, times, serviceid) =>
      var d := AtLeast(duration);
      Created(b, f, id, Context(d, InitialTimes(times), serviceid), Request(duration, times, serviceid), SlotCount(d))
    case Remove(x) =>
      if Listed(b, x) && !IsRemoved(b.timers[x].times) then Unplugged(b, x, Fires(HeardBy(b, x))) else b
  }

  ghost function DoAll(b: Ledger, f: Flat, actions: seq<Action>, ids: seq<TimerId>): Ledger
    requires |ids| == |actions|
  {
    if actions == [] then b
    else
      var n := |actions| - 1;
      Do(DoAll(b, f, actions[..n], ids[..n]), f, actions[n], ids[n])
  }

  lemma DoNothing(b: Ledger, f: Flat)
    ensures DoAll(b, f, [], []) == b
  {}

  lemma DoAllNext(b: Ledger, f: Flat, actions: seq<Action>, ids: seq<TimerId>, a: Action, id: TimerId)
    requires |ids| == |actions|
    ensures DoAll(b, f, actions + [a], ids + [id]) == Do(DoAll(b, f, actions, ids), f, a, id)
  {
    assert (actions + [a])[..|actions|] == actions && (ids + [id])[..|ids|] == ids;
  }

  /** The effect depends on the tick only, not on the keys in the wheels. */
  lemma DoOnTick(b: Ledger, f: Flat, f': Flat, a: Action, id: TimerId)
    requires f'.clock == f.clock && f'.draining == f.draining
    ensures Do(b, f', a, id) == Do(b, f, a, id)
  {}

  // ----- the timers asked for -----

  function Asks(actions: seq<Action>): seq<Request> {
    if actions == [] then []
    else
      Asks(actions[..|actions| - 1]) +
      match actions[|actions| - 1]
      case Repeat(duration, times, serviceid) => [Request(duration, times, serviceid)]
      case Remove(_) => []
  }

  /** What the lives from index `from` on were created for. */
  function Made(lives: seq<Life>, from: nat): seq<Request>
    requires from <= |lives|
  {
    seq(|lives| - from, i requires 0 <= i < |lives| - from =>
      var c := lives[from + i].made; Request(c.asked, c.quota, c.serviceid))
  }

  /** New lives start after the call that asked for them. */
  ghost predicate NewAfter(lives: seq<Life>, from: nat, start: nat) {
    forall i :: from <= i < |lives| ==> lives[i].made.from >= start
  }

  lemma MadeNext(b: Ledger, from: nat, f: Flat, id: TimerId, ctx: Context, ask: Request, n: nat)
    requires from <= |b.lives|
    ensures var b' := Created(b, f, id, ctx, ask, n);
            Made(b'.lives, from) == Made(b.lives, from) + [ask]
  {}

  lemma MadeSame(lives: seq<Life>, lives': seq<Life>, from: nat)
    requires from <= |lives| == |lives'|
    requires forall i :: 0 <= i < |lives| ==> lives'[i].made == lives[i].made
    ensures Made(lives', from) == Made(lives, from)
  {}

  /** Each request becomes one new timer, in the order of the requests, created on this tick. */
  lemma {:induction false} DoAllMakes(b: Ledger, f: Flat, actions: seq<Action>, ids: seq<TimerId>)
    requires |ids| == |actions|
    ensures var b' := DoAll(b, f, actions, ids);
            && b'.log == b.log && |b.lives| <= |b'.lives|
            && Made(b'.lives, |b.lives|) == Asks(actions)
            && forall i :: |b.lives| <= i < |b'.lives| ==>
                 b'.lives[i].made.from == |b.log| && b'.lives[i].made.born == f.clock
  {
    if actions != [] {
      var n := |actions| - 1;
      DoAllMakes(b, f, actions[..n], ids[..n]);
      var b1 := DoAll(b, f, actions[..n], ids[..n]);
      var b' := Do(b1, f, actions[n], ids[n]);
      hide SlotCount, CallsOf, Fires, IsRemoved;
      match actions[n] {
        case Repeat(duration, times, serviceid) =>
          var d := AtLeast(duration);
          MadeNext(b1, |b.lives|, f, ids[n], Context(d, InitialTimes(times), serviceid),
                   Request(duration, times, serviceid), SlotCount(d));
        case Remove(x) =>
          MadeSame(b1.lives, b'.lives, |b.lives|);
      }
    }
  }

  // ----- a stretch of calls -----

  /** Everything the handler asked for in the calls from position `from` on. */
  function Asked(handler: Handler, trace: seq<Call>, from: nat): seq<Request>
    decreases |trace|
  {
    if |trace| <= from then [] else Asked(handler, trace[..|trace| - 1], from) + Asks(handler(trace))
  }

  lemma {:induction false} AskedJoin(handler: Handler, trace: seq<Call>, trace': seq<Call>, from: nat)
    requires trace <= trace' && from <= |trace|
    ensures Asked(handler, trace', from) == Asked(handler, trace, from) + Asked(handler, trace', |trace|)
    decreases |trace'|
  {
    if |trace'| == |trace| {
      assert trace' == trace;
    } else {
      AskedJoin(handler, trace, trace'[..|trace'| - 1], from);
    }
  }

  /** If the handler removed timer `i` in call `k`, and it was in the map then, it is stopped, at no more fire calls
      than it had received by that call. */
  ghost predicate Stops(handler: Handler, trace: seq<Call>, b: Ledger, k: nat, i: nat)
    requires k < |trace| == |b.log| && i < |b.lives|
  {
    var life := b.lives[i];
    Covers(life, life.made.id, k) && Action.Remove(life.made.id) in handler(trace[..k + 1]) ==>
      0 <= life.stopped <= Fires(CallsOf(b.log[..k + 1], life.made.id, life.made.from))
  }

  /** What the calls since `b` asked for has been carried out in `b'`: each request is one new timer, in order, and each
      removal has stopped its timer. */
  ghost predicate Obeyed(handler: Handler, b: Ledger, trace: seq<Call>, b': Ledger) {
    && |b.log| <= |b'.log| == |trace| && |b.lives| <= |b'.lives|
    && Made(b'.lives, |b.lives|) == Asked(handler, trace, |b.log|)
    && NewAfter(b'.lives, |b.lives|, |b.log|)
    && forall k: nat, i: nat :: |b.log| <= k < |trace| && i < |b'.lives| ==> Stops(handler, trace, b', k, i)
  }

  lemma ObeyedNothing(handler: Handler, b: Ledger, trace: seq<Call>)
    requires |trace| == |b.log|
    ensures Obeyed(handler, b, trace, b)
  {}

  /** One call. */
  lemma ObeyedCall(handler: Handler, b: Ledger, h: seq<Event>, call: Call, trace: seq<Call>, ids: seq<TimerId>,
                   b': Ledger, h': seq<Event>)
    requires Book(b, h, {call.id}) && Book(b', h', {call.id}) && |trace| == |b.log| + 1
    requires b.timers[call.id].serviceid == call.serviceid
    requires |ids| == |handler(trace)| && b' == DoAll(Called(b, call, State(h).clock), State(h), handler(trace), ids)
    requires AllKept(Called(b, call, State(h).clock), b')
    requires forall id :: id in b.timers && Action.Remove(id) in handler(trace) ==>
               id in b'.timers && b'.timers[id] == Flagged(b.timers[id])
    ensures Obeyed(handler, b, trace, b')
  {
    var n := |b.log|;
    MadeByCall(handler, b, call, State(h), trace, ids);
    hide DoAll, CallsOf, Fires, Book, Asked, Asks, Made, NewAfter, AllKept, State, Stops;
    assert NewAfter(b'.lives, |b.lives|, n) by {
      LaterStill(b'.lives, |b.lives|, n, n + 1);
    }
    forall k: nat, i: nat | n <= k < |trace| && i < |b'.lives| ensures Stops(handler, trace, b', k, i) {
      assert k == n;
      StopsLast(handler, b, h, call, trace, b', h', i);
    }
  }

  lemma LaterStill(lives: seq<Life>, from: nat, start: nat, start': nat)
    requires NewAfter(lives, from, start') && start <= start'
    ensures NewAfter(lives, from, start)
  {}

  lemma MadeByCall(handler: Handler, b: Ledger, call: Call, f: Flat, trace: seq<Call>, ids: seq<TimerId>)
    requires |trace| == |b.log| + 1 && |ids| == |handler(trace)|
    ensures var b' := DoAll(Called(b, call, f.clock), f, handler(trace), ids);
            && |b'.log| == |trace| && |b.lives| <= |b'.lives|
            && Made(b'.lives, |b.lives|) == Asked(handler, trace, |b.log|)
            && NewAfter(b'.lives, |b.lives|, |b.log| + 1)
  {
    DoAllMakes(Called(b, call, f.clock), f, handler(trace), ids);
    hide DoAll, Asks;
    assert Asked(handler, trace[..|b.log|], |b.log|) == [];
    assert [] + Asks(handler(trace)) == Asks(handler(trace));
  }

  lemma StopsLast(handler: Handler, b: Ledger, h: seq<Event>, call: Call, trace: seq<Call>, b': Ledger, h': seq<Event>,
                  i: nat)
    requires Book(b, h, {call.id}) && Book(b', h', {call.id}) && i < |b'.lives|
    requires b.timers[call.id].serviceid == call.serviceid
    requires |trace| == |b'.log| == |b.log| + 1
    requires AllKept(Called(b, call, State(h).clock), b') && NewAfter(b'.lives, |b.lives|, |b.log| + 1)
    requires forall id :: id in b.timers && Action.Remove(id) in handler(trace) ==>
               id in b'.timers && b'.timers[id] == Flagged(b.timers[id])
    ensures Stops(handler, trace, b', |b.log|, i)
  {
    var id := b'.lives[i].made.id;
    hide Book, AllKept, State, CallsOf, Fires, IsRemoved, SetRemoved, Stops;
    if Covers(b'.lives[i], id, |b.log|) && Action.Remove(id) in handler(trace) {
      if id in b.timers {
        FlaggedOnce(b.timers[id].times);
      }
      StopsNow(b, h, call, b', h', i);
    }
    StopsAtEnd(handler, trace, b', |b.log|, i);
  }

  lemma StopsAtEnd(handler: Handler, trace: seq<Call>, b: Ledger, k: nat, i: nat)
    requires |trace| == |b.log| == k + 1 && i < |b.lives|
    requires Covers(b.lives[i], b.lives[i].made.id, k) && Action.Remove(b.lives[i].made.id) in handler(trace) ==>
      && b.lives[i].made.from <= |b.log|
      && 0 <= b.lives[i].stopped <= Fires(CallsOf(b.log, b.lives[i].made.id, b.lives[i].made.from))
    ensures Stops(handler, trace, b, k, i)
  {
    assert trace[..k + 1] == trace && b.log[..k + 1] == b.log;
  }

  lemma StopsNow(b: Ledger, h: seq<Event>, call: Call, b': Ledger, h': seq<Event>, i: nat)
    requires Book(b, h, {call.id}) && Book(b', h', {call.id}) && i < |b'.lives|
    requires b.timers[call.id].serviceid == call.serviceid
    requires AllKept(Called(b, call, State(h).clock), b')
    requires Covers(b'.lives[i], b'.lives[i].made.id, |b.log|)
    requires i >= |b.lives| ==> b'.lives[i].made.from > |b.log|
    requires b'.lives[i].made.id in b.timers ==>
               b'.lives[i].made.id in b'.timers && IsRemoved(b'.timers[b'.lives[i].made.id].times)
    ensures b'.lives[i].made.from <= |b'.log|
    ensures 0 <= b'.lives[i].stopped <= Fires(CallsOf(b'.log, b'.lives[i].made.id, b'.lives[i].made.from))
  {
    var b1, life, id := Called(b, call, State(h).clock), b.lives[i], b.lives[i].made.id;
    assert LifeKept(b, i);
    assert life.until < 0;
    BookCall(b, h, call);
    IsListed(b1, h, {call.id}, id);
    assert KeptIn(b1, b', id);
    IsListed(b', h', {call.id}, id);
  }

  /** Calls that follow one another. */
  lemma ObeyedTransitive(handler: Handler, b0: Ledger, t1: seq<Call>, b1: Ledger, t2: seq<Call>, b2: Ledger)
    requires Obeyed(handler, b0, t1, b1) && Obeyed(handler, b1, t2, b2) && t1 <= t2 && Later(b1, b2)
    ensures Obeyed(handler, b0, t2, b2)
  {
    hide CallsOf, Fires, Asked, Stops;
    AskedJoin(handler, t1, t2, |b0.log|);
    MadeJoin(b1.lives, b2.lives, |b0.lives|);
    forall k: nat, i: nat | |b0.log| <= k < |t2| && i < |b2.lives| ensures Stops(handler, t2, b2, k, i) {
      if k < |t1| {
        StopsStay(handler, b0, t1, b1, t2, b2, k, i);
      }
    }
  }

  lemma MadeJoin(lives: seq<Life>, lives': seq<Life>, from: nat)
    requires from <= |lives| <= |lives'| && forall i :: 0 <= i < |lives| ==> lives'[i].made == lives[i].made
    ensures Made(lives', from) == Made(lives, from) + Made(lives', |lives|)
  {}

  lemma StopsStay(handler: Handler, b0: Ledger, t1: seq<Call>, b1: Ledger, t2: seq<Call>, b2: Ledger, k: nat, i: nat)
    requires Obeyed(handler, b0, t1, b1) && Later(b1, b2) && t1 <= t2 && |t2| == |b2.log|
    requires NewAfter(b2.lives, |b1.lives|, |b1.log|) && |b0.log| <= k < |t1| && i < |b2.lives|
    ensures Stops(handler, t2, b2, k, i)
  {
    hide CallsOf, Fires, Asked;
    assert t2[..k + 1] == t1[..k + 1] && b2.log[..k + 1] == b1.log[..k + 1];
    if i < |b1.lives| {
      assert Stops(handler, t1, b1, k, i);
      assert Continues(b1.lives[i], b2.lives[i]);
    }
  }

  /** Closing a life after the calls, or changing the table, takes nothing back. */
  lemma ObeyedStill(handler: Handler, b: Ledger, trace: seq<Call>, b1: Ledger, b2: Ledger)
    requires Obeyed(handler, b, trace, b1) && b2.log == b1.log && |b2.lives| == |b1.lives|
    requires forall i :: 0 <= i < |b1.lives| ==>
               && b2.lives[i].made == b1.lives[i].made && b2.lives[i].stopped == b1.lives[i].stopped
               && (b2.lives[i].until == b1.lives[i].until || (b1.lives[i].until < 0 && b2.lives[i].until >= |trace|))
    ensures Obeyed(handler, b, trace, b2)
  {
    hide CallsOf, Fires, Asked;
    MadeSame(b1.lives, b2.lives, |b.lives|);
    forall k: nat, i: nat | |b.log| <= k < |trace| && i < |b2.lives| ensures Stops(handler, trace, b2, k, i) {
      assert Stops(handler, trace, b1, k, i);
    }
  }

  // ----- what a removal means for the calls -----

  lemma {:induction false} FiresGrow(log: seq<Logged>, id: TimerId, from: nat, j: nat, m: nat)
    requires from <= j <= m <= |log|
    ensures Fires(CallsOf(log[..j], id, from)) <= Fires(CallsOf(log[..m], id, from))
  {
    if j < m {
      FiresGrow(log, id, from, j, m - 1);
      assert log[..m] == log[..m - 1] + [log[m - 1]];
      var calls, last := CallsOf(log[..m - 1], id, from), log[m - 1];
      CallsAppend(log[..m - 1], last, id, from);
      FiresAppend(calls, Heard(last.call.remove, last.tick));
      assert calls + [] == calls;
    }
  }

  /** A fire call counts. */
  lemma FireCounts(log: seq<Logged>, id: TimerId, from: nat, k: nat)
    requires from <= k < |log| && log[k].call.id == id && !log[k].call.remove
    ensures Fires(CallsOf(log[..k + 1], id, from)) == Fires(CallsOf(log[..k], id, from)) + 1
  {
    assert log[..k + 1] == log[..k] + [log[k]];
    var calls := CallsOf(log[..k], id, from);
    CallsAppend(log[..k], log[k], id, from);
    assert (calls + [Heard(false, log[k].tick)])[..|calls|] == calls;
  }

  /** The number of fire calls of a timer that was stopped, after all its calls. */
  lemma StoppedFires(life: Life, log: seq<Logged>)
    requires EndedOk(life, log) && life.stopped >= 0
    ensures Fires(CallsOf(log[..life.until], life.made.id, life.made.from)) == life.stopped
  {
    var calls := CallsOf(log[..life.until], life.made.id, life.made.from);
    FiresAll(life.made, calls[..|calls| - 1]);
  }

  function End(b: Ledger, life: Life): int {
    if life.until < 0 then |b.log| else life.until
  }

  lemma FiresInAll(b: Ledger, h: seq<Event>, i: nat)
    requires Book(b, h, {}) && i < |b.lives| && b.lives[i].stopped >= 0
    ensures var life := b.lives[i];
            && life.made.from <= End(b, life) <= |b.log|
            && Fires(CallsOf(b.log[..End(b, life)], life.made.id, life.made.from)) == life.stopped
  {
    var life := b.lives[i];
    assert LifeKept(b, i);
    hide CallsOf, Fires, DueTick;
    if life.until < 0 {
      IsListed(b, h, {}, life.made.id);
      assert b.log[..|b.log|] == b.log;
    } else {
      StoppedFires(life, b.log);
    }
  }

  /** After call `k`, in which it was removed, a timer gets no fire call any more. */
  lemma NoFireAfter(b: Ledger, h: seq<Event>, i: nat, k: nat, k': nat)
    requires Book(b, h, {}) && i < |b.lives| && k < k' < |b.log|
    requires Covers(b.lives[i], b.lives[i].made.id, k) && Covers(b.lives[i], b.log[k'].call.id, k')
    requires 0 <= b.lives[i].stopped <= Fires(CallsOf(b.log[..k + 1], b.lives[i].made.id, b.lives[i].made.from))
    ensures b.log[k'].call.remove
  {
    hide Book, CallsOf, Fires;
    var id, from := b.lives[i].made.id, b.lives[i].made.from;
    FiresInAll(b, h, i);
    if !b.log[k'].call.remove {
      FiresGrow(b.log, id, from, k + 1, k');
      FireCounts(b.log, id, from, k');
      FiresGrow(b.log, id, from, k' + 1, End(b, b.lives[i]));
      assert false;
    }
  }
}
