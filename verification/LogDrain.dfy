/** The logger's drain protocol: any number of threads push lines, one writer thread swaps the queue out and writes, and
    the owner's `wait` stops it. Each lock region and each access to `state_` is one step; waiting on the condition
    variable is a step that is enabled only when its predicate holds. `pushed` and `written` record the history. One
    thread at most is inside `wait` past its first test: two would join the same thread, which is undefined in C++. */
module LogDrain {

  datatype Level = Init | Ready | Exited

  datatype Owner =
    | Running
    | Loaded    // `wait` has seen a state other than exited
    | Stored    // `wait` has stored exited
    | Joining   // `wait` has also set the queue's exit flag
    | Joined

  datatype Writer =
    | Start      // spinning until the state leaves init
    | TestState  // at the loop's first condition
    | TestSize   // at its second
    | Swap       // blocks while the queue is empty and its exit flag is off
    | Write      // going through the lines it swapped out
    | Done

  datatype State<L> = State(
    level: Level, exit: bool, queue: seq<L>, swapped: seq<L>, pos: nat, owner: Owner, writer: Writer,
    pushed: seq<L>, written: seq<L>)

  ghost predicate Initial<L>(s: State<L>) {
    && s.level == Init && !s.exit && s.owner == Running && s.writer == Start && s.pos == 0
    && s.queue == s.swapped == s.pushed == s.written == []
  }

  /** `Push`, `InitCall` and the two calls of `wait` come from outside; the other steps carry out what was asked for. A
      `wait` that finds another one under way returns at once. */
  datatype Step<L> =
    | Push(line: L)
    | InitCall
    | WaitCall
    | WaitAgain
    | StoreExited
    | SetExit
    | Join
    | LeaveStart
    | LookAtState
    | LookAtSize
    | SwapOut
    | WriteOne
    | EndWrite

  predicate Stopping(owner: Owner) {
    owner != Running && owner != Loaded
  }

  predicate Inner<L>(step: Step<L>) {
    !step.Push? && !step.InitCall? && !step.WaitCall? && !step.WaitAgain?
  }

  predicate Enabled<L>(s: State<L>, step: Step<L>) {
    match step
    case Push(_) => true
    case InitCall => s.owner == Running
    case WaitCall => s.owner == Running && s.level != Exited
    case WaitAgain => s.level == Exited
    case StoreExited => s.owner == Loaded
    case SetExit => s.owner == Stored
    case Join => s.owner == Joining && s.writer == Done
    case LeaveStart => s.writer == Start && s.level != Init
    case LookAtState => s.writer == TestState
    case LookAtSize => s.writer == TestSize
    case SwapOut => s.writer == Swap && (|s.queue| > 0 || s.exit)
    case WriteOne => s.writer == Write && s.pos < |s.swapped|
    case EndWrite => s.writer == Write && s.pos >= |s.swapped|
  }

  function Apply<L>(s: State<L>, step: Step<L>): State<L>
    requires Enabled(s, step)
  {
    match step
    case Push(line) => s.(queue := s.queue + [line], pushed := s.pushed + [line])
    case InitCall => s.(level := Ready)
    case WaitCall => s.(owner := Loaded)
    case WaitAgain => s
    case StoreExited => s.(level := Exited, owner := Stored)
    case SetExit => s.(exit := true, owner := Joining)
    case Join => s.(owner := Joined)
    case LeaveStart => s.(writer := TestState)
    case LookAtState => s.(writer := if s.level == Ready then Swap else TestSize)
    case LookAtSize => s.(writer := if |s.queue| != 0 then Swap else Done)
    case SwapOut => s.(queue := [], swapped := s.queue, pos := 0, writer := Write)
    case WriteOne => s.(written := s.written + [s.swapped[s.pos]], pos := s.pos + 1)
    case EndWrite => s.(writer := TestState)
  }

  ghost predicate Next<L>(s: State<L>, step: Step<L>, s': State<L>) {
    Enabled(s, step) && s' == Apply(s, step)
  }

  /** `steps[i]` leads from `run[i]` to `run[i + 1]`. */
  ghost predicate Run<L>(run: seq<State<L>>, steps: seq<Step<L>>) {
    && |run| == |steps| + 1 && Initial(run[0])
    && forall i, j :: 0 <= i < j < |run| && j == i + 1 ==> Next(run[i], steps[i], run[j])
  }

  ghost predicate Inv<L>(s: State<L>) {
    && s.pos <= |s.swapped|
    && (s.writer != Write ==> s.pos == |s.swapped|)
    && s.written + s.swapped[s.pos..] + s.queue == s.pushed
    && (Stopping(s.owner) <==> s.level == Exited)
    && (s.exit <==> s.owner == Joining || s.owner == Joined)
    && (s.writer != Start ==> s.level != Init)
    && (s.writer == TestSize || s.writer == Done ==> s.level == Exited)
    && (s.owner == Joined ==> s.writer == Done)
  }

  // Safety

  lemma StepKeepsInv<L>(s: State<L>, step: Step<L>)
    requires Inv(s) && Enabled(s, step)
    ensures Inv(Apply(s, step))
  {
    match step
    case Push(line) =>
      assert s.written + s.swapped[s.pos..] + (s.queue + [line]) == s.written + s.swapped[s.pos..] + s.queue + [line];
    case SwapOut => assert s.queue[0..] == s.queue;
    case WriteOne => assert s.swapped[s.pos..] == [s.swapped[s.pos]] + s.swapped[s.pos + 1..];
    case _ =>
  }

  lemma {:induction false} RunKeepsInv<L>(run: seq<State<L>>, steps: seq<Step<L>>, i: nat)
    requires Run(run, steps) && i < |run|
    ensures Inv(run[i]) && run[i].pos <= |run[i].swapped|
  {
    if i > 0 {
      RunKeepsInv(run, steps, i - 1);
      assert Next(run[i - 1], steps[i - 1], run[i]);
      StepKeepsInv(run[i - 1], steps[i - 1]);
    }
  }

  lemma {:induction false} PushedGrows<L>(run: seq<State<L>>, steps: seq<Step<L>>, i: nat, j: nat)
    requires Run(run, steps) && i <= j < |run|
    ensures run[i].pushed <= run[j].pushed
  {
    if i < j {
      PushedGrows(run, steps, i, j - 1);
      assert Next(run[j - 1], steps[j - 1], run[j]);
    }
  }

  /** The writer's last look at the queue. */
  ghost predicate LastLook<L>(run: seq<State<L>>, steps: seq<Step<L>>, m: nat)
    requires |run| == |steps| + 1
  {
    m < |steps| && steps[m] == LookAtSize && run[m].queue == []
  }

  /** From a look that finds the queue empty on, the writer is done and has written what had been pushed until then. */
  lemma {:induction false} DoneSince<L>(run: seq<State<L>>, steps: seq<Step<L>>, m: nat, i: nat)
    requires Run(run, steps) && LastLook(run, steps, m) && m < i < |run|
    ensures run[i].writer == Done && run[i].written == run[m].pushed
  {
    assert Next(run[i - 1], steps[i - 1], run[i]);
    if m < i - 1 {
      DoneSince(run, steps, m, i - 1);
    } else {
      RunKeepsInv(run, steps, m);
    }
  }

  lemma {:induction false} DoneFrom<L>(run: seq<State<L>>, steps: seq<Step<L>>, i: nat) returns (m: nat)
    requires Run(run, steps) && i < |run| && run[i].writer == Done
    ensures m < i && LastLook(run, steps, m)
  {
    m := i - 1;
    assert Next(run[m], steps[m], run[i]);
    if run[m].writer == Done {
      m := DoneFrom(run, steps, m);
    }
  }

  /** The lines that are written: when the writer is done, the line pushed in step `j` has been written, at its place in
      the push order, if and only if that step came before the look that found the queue empty. */
  lemma WrittenIff<L>(run: seq<State<L>>, steps: seq<Step<L>>, i: nat, j: nat) returns (m: nat)
    requires Run(run, steps) && i < |run| && run[i].writer == Done && j < |steps| && steps[j].Push?
    ensures m < i && LastLook(run, steps, m)
    ensures j < m <==> |run[j].pushed| < |run[i].written|
    ensures j < m ==> run[i].written[|run[j].pushed|] == steps[j].line
  {
    m := DoneFrom(run, steps, i);
    DoneSince(run, steps, m, i);
    var j' := j + 1;
    assert Next(run[j], steps[j], run[j']);
    if j < m {
      PushedGrows(run, steps, j', m);
    } else {
      PushedGrows(run, steps, m, j);
    }
  }

  /** In every interleaving the written lines are pushed lines, each once and in push order; and when the writer is
      done, which it is when the `wait` that stopped it returns, every line pushed before that `wait` began has been
      written. */
  lemma WrittenInOrder<L>(run: seq<State<L>>, steps: seq<Step<L>>, k: nat, i: nat)
    requires Run(run, steps) && k < i < |run| && steps[k] == WaitCall
    ensures run[i].written <= run[i].pushed
    ensures run[i].owner == Joined ==> run[i].writer == Done
    ensures run[i].writer == Done ==> run[k].pushed <= run[i].written
  {
    RunKeepsInv(run, steps, i);
    var s := run[i];
    assert s.written + (s.swapped[s.pos..] + s.queue) == s.pushed;
    if s.writer == Done {
      var m := DoneFrom(run, steps, i);
      DoneSince(run, steps, m, i);
      LookAfterWait(run, steps, k, m);
      PushedGrows(run, steps, k, m);
    }
  }

  /** The writer looks at the queue's size only once `wait` has stored exited. */
  lemma LookAfterWait<L>(run: seq<State<L>>, steps: seq<Step<L>>, k: nat, m: nat)
    requires Run(run, steps) && k < |steps| && steps[k] == WaitCall && m < |steps| && steps[m] == LookAtSize
    ensures k < m
  {
    var k', m' := k + 1, m + 1;
    assert Next(run[k], steps[k], run[k']) && Next(run[m], steps[m], run[m']);
    RunKeepsInv(run, steps, m);
    if m <= k {
      StillStopping(run, steps, m, k);
    }
  }

  lemma {:induction false} StillStopping<L>(run: seq<State<L>>, steps: seq<Step<L>>, i: nat, j: nat)
    requires Run(run, steps) && i <= j < |run| && Stopping(run[i].owner)
    ensures Stopping(run[j].owner)
  {
    if i < j {
      StillStopping(run, steps, i, j - 1);
      assert Next(run[j - 1], steps[j - 1], run[j]);
    }
  }

  lemma Then<L>(run: seq<State<L>>, steps: seq<Step<L>>, step: Step<L>)
    returns (run': seq<State<L>>, steps': seq<Step<L>>)
    requires Run(run, steps) && Enabled(run[|run| - 1], step)
    ensures Run(run', steps') && steps' == steps + [step] && run'[|run'| - 1] == Apply(run[|run| - 1], step)
  {
    run', steps' := run + [Apply(run[|run| - 1], step)], steps + [step];
  }

  /** A line pushed after `wait` began may be lost: here it comes after the writer's last look at the queue. */
  lemma LateLineLost<L>(line: L) returns (run: seq<State<L>>, steps: seq<Step<L>>)
    ensures Run(run, steps)
    ensures run[|run| - 1].owner == Joined && run[|run| - 1].pushed == [line] && run[|run| - 1].written == []
  {
    run, steps := [State(Init, false, [], [], 0, Running, Start, [], [])], [];
    run, steps := Then(run, steps, WaitCall);
    run, steps := Then(run, steps, StoreExited);
    run, steps := Then(run, steps, LeaveStart);
    run, steps := Then(run, steps, LookAtState);
    run, steps := Then(run, steps, LookAtSize);
    run, steps := Then(run, steps, Push(line));
    run, steps := Then(run, steps, SetExit);
    run, steps := Then(run, steps, Join);
  }

  /** A second `wait` may return while lines pushed before it are still unwritten. */
  lemma SecondWaitEarly<L>(line: L) returns (run: seq<State<L>>, steps: seq<Step<L>>)
    ensures Run(run, steps) && |steps| > 0 && steps[|steps| - 1] == WaitAgain
    ensures run[|run| - 1].pushed == [line] && run[|run| - 1].written == []
  {
    run, steps := [State(Init, false, [], [], 0, Running, Start, [], [])], [];
    run, steps := Then(run, steps, Push(line));
    run, steps := Then(run, steps, WaitCall);
    run, steps := Then(run, steps, StoreExited);
    run, steps := Then(run, steps, WaitAgain);
  }

  /** A `wait` that returns at once leaves everything written that was pushed before it exactly if the queue is empty
      and the writer has no swapped-out line left. */
  lemma SecondWaitIff<L>(run: seq<State<L>>, steps: seq<Step<L>>, i: nat)
    requires Run(run, steps) && i < |steps| && steps[i] == WaitAgain
    ensures run[i].written == run[i].pushed <==> run[i].queue == [] && run[i].pos == |run[i].swapped|
  {
    RunKeepsInv(run, steps, i);
    var s := run[i];
    assert |s.written| + |s.swapped[s.pos..]| + |s.queue| == |s.pushed|;
  }

  // Progress

  function Rank(w: Writer, exited: bool, empty: bool): nat {
    match w
    case Start => 8
    case TestState => if exited then 2 else 6
    case TestSize => 1
    case Swap => if !exited then 5 else if empty then 4 else 0
    case Write => if exited then 3 else 7
    case Done => 0
  }

  function Work<L>(s: State<L>): nat
    requires s.pos <= |s.swapped|
  {
    6 * |s.queue| + (|s.swapped| - s.pos) + Rank(s.writer, s.level == Exited, s.queue == [])
      + match s.owner case Running => 4 case Loaded => 3 case Stored => 2 case Joining => 1 case Joined => 0
  }

  lemma InnerStepWorks<L>(s: State<L>, step: Step<L>)
    requires Inv(s) && Enabled(s, step) && Inner(step)
    ensures Apply(s, step).pos <= |Apply(s, step).swapped| && Work(Apply(s, step)) < Work(s)
    ensures Apply(s, step).pushed == s.pushed
  {
  }

  /** With nothing asked for from outside between `i` and `j`, the run can take no more than `Work` steps. */
  lemma {:induction false} WorkBounds<L>(run: seq<State<L>>, steps: seq<Step<L>>, i: nat, j: nat)
    requires Run(run, steps) && i <= j < |run| && forall k :: i <= k < j ==> Inner(steps[k])
    ensures run[i].pushed == run[j].pushed
    ensures run[i].pos <= |run[i].swapped| && run[j].pos <= |run[j].swapped|
    ensures j - i + Work(run[j]) <= Work(run[i])
  {
    hide Inv, Work, Enabled, Apply, Initial;
    RunKeepsInv(run, steps, i);
    if i < j {
      WorkBounds(run, steps, i, j - 1);
      RunKeepsInv(run, steps, j - 1);
      assert Next(run[j - 1], steps[j - 1], run[j]);
      InnerStepWorks(run[j - 1], steps[j - 1]);
    }
  }

  /** Once `wait` has begun, a run that can go no further by itself is one where the writer is done and joined; before
      that the writer is never left blocked: it can step as soon as the exit flag is set. */
  lemma NeverLeftBlocked<L>(run: seq<State<L>>, steps: seq<Step<L>>, i: nat)
    requires Run(run, steps) && i < |run| && run[i].owner != Running
    ensures run[i].owner == Joined || exists step: Step<L> :: Inner(step) && Enabled(run[i], step)
    ensures run[i].exit && run[i].writer != Done
        ==> exists step: Step<L> :: Inner(step) && step != Join && Enabled(run[i], step)
  {
    var s := run[i];
    RunKeepsInv(run, steps, i);
    var step := match s.writer
      case Start => if s.level == Init then StoreExited else LeaveStart
      case TestState => LookAtState
      case TestSize => LookAtSize
      case Swap => if s.exit then SwapOut else if s.owner == Loaded then StoreExited else SetExit
      case Write => if s.pos < |s.swapped| then WriteOne else EndWrite
      case Done => if s.owner == Loaded then StoreExited else if s.owner == Stored then SetExit else Join;
    assert s.owner == Joined || (Inner<L>(step) && Enabled<L>(s, step));
  }

  lemma {:induction false} ReadySince<L>(run: seq<State<L>>, steps: seq<Step<L>>, k: nat, i: nat)
    requires Run(run, steps) && k < i < |run| && steps[k] == InitCall && run[i].owner == Running
    ensures run[i].level == Ready
  {
    assert Next(run[i - 1], steps[i - 1], run[i]);
    RunKeepsInv(run, steps, i - 1);
    if k < i - 1 {
      ReadySince(run, steps, k, i - 1);
    }
  }

  /** No line is left behind: a logger that was made ready, that nobody has asked to stop and that can go no further by
      itself has written every pushed line; with `WorkBounds`, every run gets there. So a pushed line always wakes the
      writer. */
  lemma RestsWhenAllWritten<L>(run: seq<State<L>>, steps: seq<Step<L>>, k: nat, i: nat)
    requires Run(run, steps) && k < i < |run| && steps[k] == InitCall && run[i].owner == Running
    requires forall step: Step<L> :: Inner(step) ==> !Enabled(run[i], step)
    ensures run[i].written == run[i].pushed
  {
    RunKeepsInv(run, steps, i);
    ReadySince(run, steps, k, i);
    var s := run[i];
    var step := match s.writer
      case Start => LeaveStart
      case TestState => LookAtState
      case TestSize => LookAtSize
      case Write => if s.pos < |s.swapped| then WriteOne else EndWrite
      case _ => SwapOut;
    assert Inner<L>(step) && !Enabled<L>(s, step);
  }
}
