/** The reader/writer spin lock as a step protocol of any number of threads. Every atomic operation is one step and
    steps interleave freely (sequential consistency). */
module RwLock {
  import opened Counting

  /** Where a thread is in `lock_shared`, `unlock_shared`, `lock` or `unlock`. */
  datatype Pc =
    | Idle
    | SpinRead    // about to test write_ in the inner loop
    | Add         // about to increment read_
    | Recheck     // has incremented read_, about to test write_ again
    | BackOff     // saw a writer, about to decrement read_
    | Reading     // holds the lock shared
    | SpinWrite   // about to exchange write_
    | Drain       // owns write_, about to test read_
    | Writing     // holds the lock

  datatype State = State(read: int, write: bool, pc: seq<Pc>)

  predicate Init(s: State) {
    s.read == 0 && !s.write && forall t :: 0 <= t < |s.pc| ==> s.pc[t] == Idle
  }

  /** One atomic step of thread `t`; an idle thread may call either lock function. */
  ghost predicate Step(s: State, s': State, t: nat) {
    t < |s.pc| &&
    match s.pc[t]
    case Idle => s' == Goto(s, t, SpinRead) || s' == Goto(s, t, SpinWrite)
    case SpinRead => s' == Goto(s, t, if s.write then SpinRead else Add)
    case Add => s' == Goto(s, t, Recheck).(read := s.read + 1)
    case Recheck => s' == Goto(s, t, if s.write then BackOff else Reading)
    case BackOff => s' == Goto(s, t, SpinRead).(read := s.read - 1)
    case Reading => s' == Goto(s, t, Idle).(read := s.read - 1)
    case SpinWrite => s' == Goto(s, t, if s.write then SpinWrite else Drain).(write := true)
    case Drain => s' == Goto(s, t, if s.read != 0 then Drain else Writing)
    case Writing => s' == Goto(s, t, Idle).(write := false)
  }

  function Goto(s: State, t: nat, pc: Pc): State
    requires t < |s.pc|
  {
    s.(pc := s.pc[t := pc])
  }

  ghost predicate Run(run: seq<State>) {
    && |run| > 0 && Init(run[0])
    && forall i, j :: 0 <= i < j < |run| && j == i + 1 ==> Next(run[i], run[j])
  }

  ghost predicate Next(s: State, s': State) {
    exists t: nat :: Step(s, s', t)
  }

  /** Threads that have incremented read_ and not yet decremented it. */
  function Counted(pc: Pc): nat {
    if pc.Recheck? || pc.BackOff? || pc.Reading? then 1 else 0
  }

  function Owner(pc: Pc): nat {
    if pc.Drain? || pc.Writing? then 1 else 0
  }

  ghost predicate Inv(s: State) {
    && s.read == Total(s.pc, Counted)
    && Total(s.pc, Owner) == (if s.write then 1 else 0)
    && forall t, u :: 0 <= t < |s.pc| && 0 <= u < |s.pc| && s.pc[t].Writing? ==> !s.pc[u].Reading?
  }

  lemma StepKeepsInv(s: State, s': State, t: nat)
    requires Inv(s) && Step(s, s', t)
    ensures Inv(s')
  {
    hide Total;
    TotalUpdate(s.pc, t, s'.pc[t], Counted);
    TotalUpdate(s.pc, t, s'.pc[t], Owner);
    assert s'.pc == s.pc[t := s'.pc[t]];
    if s'.pc[t].Writing? && !s.pc[t].Writing? {
      forall u | 0 <= u < |s.pc| ensures !s.pc[u].Reading? {
        if s.pc[u].Reading? {
          TotalAtLeast(s.pc, u, Counted);
        }
      }
    }
    if s'.pc[t].Reading? && !s.pc[t].Reading? {
      forall u | 0 <= u < |s.pc| ensures !s.pc[u].Writing? {
        if s.pc[u].Writing? {
          TotalAtLeast(s.pc, u, Owner);
        }
      }
    }
  }

  lemma {:induction false} RunKeepsInv(run: seq<State>, i: nat)
    requires Run(run) && i < |run|
    ensures Inv(run[i])
  {
    if i == 0 {
      TotalZero(run[0].pc, Counted);
      TotalZero(run[0].pc, Owner);
    } else {
      RunKeepsInv(run, i - 1);
      assert Next(run[i - 1], run[i]);
      var t: nat :| Step(run[i - 1], run[i], t);
      StepKeepsInv(run[i - 1], run[i], t);
    }
  }

  /** A writer in its section excludes all readers and all other writers, and read_ is never negative: in every
      interleaving of any number of threads. */
  lemma Exclusion(run: seq<State>, i: nat, t: nat, u: nat)
    requires Run(run) && i < |run| && t < |run[i].pc| && u < |run[i].pc| && t != u
    ensures run[i].read == Total(run[i].pc, Counted)
    ensures run[i].pc[t].Writing? ==> !run[i].pc[u].Reading? && !run[i].pc[u].Writing?
  {
    RunKeepsInv(run, i);
    var pc := run[i].pc;
    if pc[t].Writing? && pc[u].Writing? {
      TotalOfTwo(pc, if t < u then t else u, if t < u then u else t, Owner);
    }
  }

  /** How many steps a thread may still take before it waits for the owner of write_ or goes idle. */
  function Rank(pc: Pc): nat {
    match pc
    case Add => 3
    case Recheck => 2
    case BackOff => 1
    case Reading => 1
    case _ => 0
  }

  /** A step of a thread inside the lock's code that is not a spin. */
  ghost predicate Busy(s: State, s': State) {
    s' != s && exists t: nat :: t < |s.pc| && Step(s, s', t) && !s.pc[t].Idle?
  }

  ghost function BusySteps(run: seq<State>, i: nat, j: nat): nat
    requires i <= j < |run|
  {
    if i == j then 0 else BusySteps(run, i, j - 1) + if Busy(run[j - 1], run[j]) then 1 else 0
  }

  lemma WaitingStep(s: State, s': State, t: nat, w: nat)
    requires Inv(s) && Step(s, s', t) && w < |s.pc| && s.pc[w].Drain? && s'.pc[w].Drain?
    ensures Total(s'.pc, Rank) <= Total(s.pc, Rank)
    ensures s' != s && !s.pc[t].Idle? ==> Total(s'.pc, Rank) < Total(s.pc, Rank)
  {
    TotalAtLeast(s.pc, w, Owner);
    if t != w && (s.pc[t].Drain? || s.pc[t].Writing?) {
      TotalOfTwo(s.pc, if t < w then t else w, if t < w then w else t, Owner);
    }
    TotalUpdate(s.pc, t, s'.pc[t], Rank);
    assert s'.pc == s.pc[t := s'.pc[t]];
    if s'.pc[t] == s.pc[t] {
      assert s.pc[t := s.pc[t]] == s.pc;
    }
  }

  /** Readers cannot keep a waiting writer out: as long as thread `w` waits for them, the other threads take no more
      steps than their ranks allow, at most three each, that are neither spins nor new calls; and when the ranks are
      used up, the writer's next step takes it in. */
  lemma {:induction false} WriterAdmitted(run: seq<State>, i: nat, j: nat, w: nat)
    requires Run(run) && i <= j < |run|
    requires forall k :: i <= k <= j ==> w < |run[k].pc| && run[k].pc[w].Drain?
    ensures BusySteps(run, i, j) + Total(run[j].pc, Rank) <= Total(run[i].pc, Rank) <= 3 * |run[i].pc|
    ensures Total(run[j].pc, Rank) == 0 ==> forall s' :: Step(run[j], s', w) ==> s'.pc[w].Writing?
  {
    hide Step, Inv;
    TotalMost(run[i].pc, Rank, 3);
    if i < j {
      WriterAdmitted(run, i, j - 1, w);
      RunKeepsInv(run, j - 1);
      assert Next(run[j - 1], run[j]);
      if Busy(run[j - 1], run[j]) {
        var t: nat :| t < |run[j - 1].pc| && Step(run[j - 1], run[j], t) && !run[j - 1].pc[t].Idle?;
        WaitingStep(run[j - 1], run[j], t, w);
      } else {
        var t: nat :| Step(run[j - 1], run[j], t);
        WaitingStep(run[j - 1], run[j], t, w);
      }
    }
    RunKeepsInv(run, j);
    if Total(run[j].pc, Rank) == 0 {
      NoneCounted(run[j], w);
    }
  }

  lemma NoneCounted(s: State, w: nat)
    requires Inv(s) && Total(s.pc, Rank) == 0 && w < |s.pc| && s.pc[w].Drain?
    ensures forall s' :: Step(s, s', w) ==> s'.pc[w].Writing?
  {
    TotalZero(s.pc, Rank);
    TotalZero(s.pc, Counted);
  }

  // Readers

  /** `movers[k]` takes the step from `run[k]` to `run[k + 1]`. */
  ghost predicate Moves(run: seq<State>, movers: seq<nat>) {
    && |run| == |movers| + 1
    && forall i, j :: 0 <= i < j < |run| && j == i + 1 ==> Step(run[i], run[j], movers[i])
  }

  ghost predicate NoOwner(s: State) {
    forall t :: 0 <= t < |s.pc| ==> !s.pc[t].Drain? && !s.pc[t].Writing?
  }

  lemma WriteIsClear(s: State)
    requires Inv(s) && NoOwner(s)
    ensures !s.write
  {
    TotalZero(s.pc, Owner);
  }

  /** How many steps of its own a reader is away from its section. */
  function Ahead(pc: Pc): nat {
    match pc
    case BackOff => 4
    case SpinRead => 3
    case Add => 2
    case Recheck => 1
    case _ => 0
  }

  lemma {:induction false} ReaderAdvances(run: seq<State>, movers: seq<nat>, i: nat, j: nat, r: nat)
    requires Run(run) && Moves(run, movers) && i <= j < |run|
    requires forall k :: i <= k < j ==> NoOwner(run[k])
    requires r < |run[i].pc| && Ahead(run[i].pc[r]) > 0
    requires multiset(movers[i..j])[r] < Ahead(run[i].pc[r])
    ensures r < |run[j].pc|
    ensures Ahead(run[j].pc[r]) == Ahead(run[i].pc[r]) - multiset(movers[i..j])[r]
  {
    hide Inv, Run, Step, Ahead, NoOwner;
    if i < j {
      assert movers[i..j] == movers[i..j - 1] + [movers[j - 1]];
      ReaderAdvances(run, movers, i, j - 1, r);
      RunKeepsInv(run, j - 1);
      WriteIsClear(run[j - 1]);
      assert Step(run[j - 1], run[j], movers[j - 1]);
      OneStepOn(run[j - 1], run[j], movers[j - 1], r);
    }
  }

  lemma OneStepOn(s: State, s': State, t: nat, r: nat)
    requires Step(s, s', t) && !s.write && r < |s.pc| && Ahead(s.pc[r]) > (if t == r then 1 else 0)
    ensures r < |s'.pc| && Ahead(s'.pc[r]) == Ahead(s.pc[r]) - (if t == r then 1 else 0)
  {
  }

  /** A reader gets in: on any stretch of a run on which no thread owns `write_`, a thread inside `lock_shared` holds
      the lock with its fourth step at the latest, whatever the others do between its steps. */
  lemma ReaderAdmitted(run: seq<State>, movers: seq<nat>, i: nat, j: nat, r: nat) returns (k: nat)
    requires Run(run) && Moves(run, movers) && i <= j < |run|
    requires forall m :: i <= m < j ==> NoOwner(run[m])
    requires r < |run[i].pc|
    requires run[i].pc[r].SpinRead? || run[i].pc[r].Add? || run[i].pc[r].Recheck? || run[i].pc[r].BackOff?
    requires multiset(movers[i..j])[r] >= 4
    ensures i < k <= j && r < |run[k].pc| && run[k].pc[r].Reading?
    ensures multiset(movers[i..k])[r] <= 4
  {
    hide Inv, Run, Step;
    k := LastOf(movers, i, j, r, Ahead(run[i].pc[r]));
    ReaderAdvances(run, movers, i, k - 1, r);
    RunKeepsInv(run, k - 1);
    WriteIsClear(run[k - 1]);
    assert Step(run[k - 1], run[k], r);
    EntersReading(run[k - 1], run[k], r);
  }

  lemma EntersReading(s: State, s': State, r: nat)
    requires Step(s, s', r) && !s.write && Ahead(s.pc[r]) == 1
    ensures r < |s'.pc| && s'.pc[r].Reading?
  {
  }

  /** The `n`-th step of thread `r` after `i` ends at `k`. */
  lemma {:induction false} LastOf(movers: seq<nat>, i: nat, j: nat, r: nat, n: nat) returns (k: nat)
    requires i <= j <= |movers| && 0 < n <= multiset(movers[i..j])[r]
    ensures i < k <= j && movers[k - 1] == r && multiset(movers[i..k - 1])[r] == n - 1
    ensures multiset(movers[i..k])[r] == n
  {
    assert i < j;
    assert movers[i..j] == movers[i..j - 1] + [movers[j - 1]];
    if n <= multiset(movers[i..j - 1])[r] {
      k := LastOf(movers, i, j - 1, r, n);
    } else {
      k := j;
    }
  }

  lemma {:induction false} DrainStays(run: seq<State>, movers: seq<nat>, i: nat, j: nat, w: nat)
    requires Moves(run, movers) && i <= j < |run| && w < |run[i].pc| && run[i].pc[w].Drain?
    requires multiset(movers[i..j])[w] == 0
    ensures w < |run[j].pc| && run[j].pc[w].Drain?
  {
    if i < j {
      assert movers[i..j] == movers[i..j - 1] + [movers[j - 1]];
      DrainStays(run, movers, i, j - 1, w);
      assert Step(run[j - 1], run[j], movers[j - 1]);
    }
  }

  /** And so does a writer: if no thread owns `write_` when it exchanges, and no reader is counted when it takes its
      next step, it is then in its section. */
  lemma WriterEnters(run: seq<State>, movers: seq<nat>, i: nat, j: nat, w: nat)
    requires Run(run) && Moves(run, movers) && i < j < |movers| && movers[i] == movers[j] == w
    requires w < |run[i].pc| && run[i].pc[w].SpinWrite? && NoOwner(run[i])
    requires multiset(movers[i + 1..j])[w] == 0
    requires forall t :: 0 <= t < |run[j].pc|
               ==> !run[j].pc[t].Recheck? && !run[j].pc[t].BackOff? && !run[j].pc[t].Reading?
    ensures w < |run[j + 1].pc| && run[j + 1].pc[w].Writing?
  {
    RunKeepsInv(run, i);
    WriteIsClear(run[i]);
    var i', j' := i + 1, j + 1;
    assert Step(run[i], run[i'], w);
    DrainStays(run, movers, i', j, w);
    RunKeepsInv(run, j);
    TotalZero(run[j].pc, Counted);
    assert Step(run[j], run[j'], w);
  }

  lemma Then(run: seq<State>, t: nat, s: State) returns (run': seq<State>)
    requires Run(run) && Step(run[|run| - 1], s, t)
    ensures Run(run') && run' == run + [s]
  {
    run' := run + [s];
    assert Next(run[|run| - 1], s);
    forall i, j | 0 <= i < j < |run'| && j == i + 1 ensures Next(run'[i], run'[j]) {
      if j < |run| {
        assert Next(run[i], run[j]);
      }
    }
  }

  predicate AllIdle(s: State) {
    forall t :: 0 <= t < |s.pc| ==> s.pc[t].Idle?
  }

  /** From every reachable state in which all threads are idle, any of them can take the lock either way. */
  lemma Available(run: seq<State>, t: nat) returns (reading: seq<State>, writing: seq<State>)
    requires Run(run) && t < |run[|run| - 1].pc| && AllIdle(run[|run| - 1])
    ensures Run(reading) && run < reading && t < |reading[|reading| - 1].pc| && reading[|reading| - 1].pc[t].Reading?
    ensures Run(writing) && run < writing && t < |writing[|writing| - 1].pc| && writing[|writing| - 1].pc[t].Writing?
  {
    var s := run[|run| - 1];
    RunKeepsInv(run, |run| - 1);
    TotalZero(s.pc, Counted);
    TotalZero(s.pc, Owner);
    hide Run, Inv;
    var s1, s2, s3 := Goto(s, t, SpinRead), Goto(s, t, Add), Goto(s, t, Recheck).(read := 1);
    reading := Then(run, t, s1);
    reading := Then(reading, t, s2);
    reading := Then(reading, t, s3);
    reading := Then(reading, t, Goto(s3, t, Reading));
    var w1, w2 := Goto(s, t, SpinWrite), Goto(s, t, Drain).(write := true);
    writing := Then(run, t, w1);
    writing := Then(writing, t, w2);
    writing := Then(writing, t, Goto(w2, t, Writing));
  }

  /** The lock never deadlocks: unless all threads are idle, some thread that is not idle can take a step that
      changes the state. */
  lemma NoDeadlock(run: seq<State>, i: nat, t: nat) returns (u: nat, s': State)
    requires Run(run) && i < |run| && t < |run[i].pc| && !run[i].pc[t].Idle?
    ensures u < |run[i].pc| && !run[i].pc[u].Idle? && Step(run[i], s', u) && s' != run[i]
  {
    RunKeepsInv(run, i);
    var s := run[i];
    if v :| 0 <= v < |s.pc| && (Counted(s.pc[v]) == 1 || s.pc[v].Add? || s.pc[v].Writing?) {
      u := v;
      s' := match s.pc[v]
        case Add => Goto(s, v, Recheck).(read := s.read + 1)
        case Recheck => Goto(s, v, if s.write then BackOff else Reading)
        case BackOff => Goto(s, v, SpinRead).(read := s.read - 1)
        case Reading => Goto(s, v, Idle).(read := s.read - 1)
        case _ => Goto(s, v, Idle).(write := false);
    } else {
      TotalZero(s.pc, Counted);
      if v :| 0 <= v < |s.pc| && s.pc[v].Drain? {
        u, s' := v, Goto(s, v, Writing);
      } else {
        TotalZero(s.pc, Owner);
        u := t;
        s' := if s.pc[t].SpinRead? then Goto(s, t, Add) else Goto(s, t, Drain).(write := true);
      }
    }
    assert s'.pc[u] != s.pc[u];
  }
}
