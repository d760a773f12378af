/** A worker's mailbox as a protocol of one worker thread and any number of sending threads: `send` pushes a message
    and posts a drain task only when its message was the first; the worker's loop takes tasks one by one. Each lock
    region is one step and steps interleave freely. `pushed`, `handled`, `posted` and `taken` record the history. */
module Mailbox {
  import opened Counting

  datatype Task = Drain | Other

  datatype Sender =
    | Free      // outside `send`
    | Posting   // its push returned 1; about to post the drain task

  datatype Worker =
    | Ready     // at the head of its task loop
    | Test      // in a drain task, about to look at the queue's size
    | Swap      // saw a message, about to swap the queue out
    | Handle    // going through the messages it swapped out
    | Exited

  datatype State<M> = State(
    mq: seq<M>, swapped: seq<M>, pos: nat, tasks: seq<Task>, senders: seq<Sender>, worker: Worker,
    pushed: seq<M>, handled: seq<M>, posted: seq<Task>, taken: seq<Task>)

  ghost predicate Init<M>(s: State<M>) {
    && s.mq == s.swapped == s.pushed == s.handled == [] && s.pos == 0 && s.worker == Ready
    && s.tasks == s.posted == s.taken == []
    && forall t :: 0 <= t < |s.senders| ==> s.senders[t] == Free
  }

  /** `Push` and `PostOther` come from outside; all other steps carry out what was asked for. The worker's own sends,
      made from inside a handler, are those of one more sender. */
  datatype Step<M> =
    | Push(sender: nat, message: M)
    | PostOther
    | PostDrain(poster: nat)
    | Take(exit: bool)
    | LookAtSize
    | SwapOut
    | HandleOne
    | EndDrain

  predicate Inner<M>(step: Step<M>) {
    !step.Push? && !step.PostOther?
  }

  predicate Enabled<M>(s: State<M>, step: Step<M>) {
    match step
    case Push(t, _) => t < |s.senders| && s.senders[t] == Free
    case PostOther => true
    case PostDrain(t) => t < |s.senders| && s.senders[t] == Posting
    case Take(exit) => s.worker == Ready && s.tasks != [] && (exit ==> s.tasks[0] == Other)
    case LookAtSize => s.worker == Test
    case SwapOut => s.worker == Swap
    case HandleOne => s.worker == Handle && s.pos < |s.swapped|
    case EndDrain => s.worker == Handle && s.pos >= |s.swapped|
  }

  function Apply<M>(s: State<M>, step: Step<M>): State<M>
    requires Enabled(s, step)
  {
    match step
    case Push(t, m) =>
      var s := s.(mq := s.mq + [m], pushed := s.pushed + [m]);
      if |s.mq| == 1 then s.(senders := s.senders[t := Posting]) else s
    case PostOther => s.(tasks := s.tasks + [Other], posted := s.posted + [Other])
    case PostDrain(t) =>
      s.(tasks := s.tasks + [Drain], posted := s.posted + [Drain], senders := s.senders[t := Free])
    case Take(exit) =>
      s.(tasks := s.tasks[1..], taken := s.taken + [s.tasks[0]],
         worker := if s.tasks[0] == Drain then Test else if exit then Exited else Ready)
    case LookAtSize => s.(worker := if |s.mq| != 0 then Swap else Ready)
    case SwapOut => s.(mq := [], swapped := s.mq, pos := 0, worker := Handle)
    case HandleOne => s.(handled := s.handled + [s.swapped[s.pos]], pos := s.pos + 1)
    case EndDrain => s.(worker := Ready)
  }

  /** `steps[i]` leads from `run[i]` to `run[i + 1]`. */
  ghost predicate Run<M>(run: seq<State<M>>, steps: seq<Step<M>>) {
    && |run| == |steps| + 1 && Init(run[0])
    && forall i, j :: 0 <= i < j < |run| && j == i + 1 ==> Next(run[i], steps[i], run[j])
  }

  ghost predicate Next<M>(s: State<M>, step: Step<M>, s': State<M>) {
    Enabled(s, step) && s' == Apply(s, step)
  }

  function PostingOne(sender: Sender): nat {
    if sender == Posting then 1 else 0
  }

  function DrainOne(task: Task): nat {
    if task == Drain then 1 else 0
  }

  /** The wake-ups under way: a sender about to post one, one posted, or the worker on its way to the swap. */
  function Wakeups<M>(s: State<M>): nat {
    Total(s.senders, PostingOne) + Total(s.tasks, DrainOne) + if s.worker == Test || s.worker == Swap then 1 else 0
  }

  ghost predicate Inv<M>(s: State<M>) {
    && s.pos <= |s.swapped|
    && (s.worker != Handle ==> s.pos == |s.swapped|)
    && Wakeups(s) == (if s.mq == [] then 0 else 1)
    && s.handled + s.swapped[s.pos..] + s.mq == s.pushed
    && s.taken + s.tasks == s.posted
  }

  // Safety

  lemma StepKeepsWakeups<M>(s: State<M>, step: Step<M>)
    requires Wakeups(s) == (if s.mq == [] then 0 else 1) && Enabled(s, step)
    ensures Wakeups(Apply(s, step)) == if Apply(s, step).mq == [] then 0 else 1
  {
    hide Total;
    match step
    case Push(t, m) => TotalUpdate(s.senders, t, Posting, PostingOne);
    case PostOther => TotalAppend(s.tasks, Other, DrainOne);
    case PostDrain(t) =>
      TotalUpdate(s.senders, t, Free, PostingOne);
      TotalAppend(s.tasks, Drain, DrainOne);
    case Take(exit) => TakeKeepsWakeups(s, exit);
    case _ =>
  }

  lemma TakeKeepsWakeups<M>(s: State<M>, exit: bool)
    requires Enabled(s, Take(exit))
    ensures Wakeups(Apply(s, Take(exit))) == Wakeups(s)
  {
    TotalFirst(s.tasks, DrainOne);
    hide Total;
  }

  lemma StepKeepsOrder<M>(s: State<M>, step: Step<M>)
    requires Inv(s) && Enabled(s, step)
    ensures var s' := Apply(s, step);
            && s'.pos <= |s'.swapped| && (s'.worker != Handle ==> s'.pos == |s'.swapped|)
            && s'.handled + s'.swapped[s'.pos..] + s'.mq == s'.pushed && s'.taken + s'.tasks == s'.posted
  {
    hide Total;
    match step
    case Push(t, m) =>
      assert s.handled + s.swapped[s.pos..] + (s.mq + [m]) == s.handled + s.swapped[s.pos..] + s.mq + [m];
    case SwapOut => assert s.mq[0..] == s.mq;
    case HandleOne =>
      assert s.swapped[s.pos..] == [s.swapped[s.pos]] + s.swapped[s.pos + 1..];
    case _ =>
  }

  lemma StepKeepsInv<M>(s: State<M>, step: Step<M>)
    requires Inv(s) && Enabled(s, step)
    ensures Inv(Apply(s, step))
  {
    StepKeepsWakeups(s, step);
    StepKeepsOrder(s, step);
    hide Apply, Wakeups;
  }

  lemma {:induction false} RunKeepsInv<M>(run: seq<State<M>>, steps: seq<Step<M>>, i: nat)
    requires Run(run, steps) && i < |run|
    ensures Inv(run[i]) && run[i].pos <= |run[i].swapped|
  {
    if i == 0 {
      TotalZero(run[0].senders, PostingOne);
    } else {
      RunKeepsInv(run, steps, i - 1);
      assert Next(run[i - 1], steps[i - 1], run[i]);
      StepKeepsInv(run[i - 1], steps[i - 1]);
    }
  }

  /** No wake-up is lost and none is doubled: in every interleaving, messages wait exactly while a sender is about to
      post a drain task, one is queued, or the worker is on its way to the swap, and never two of these at once; so a
      drain task never finds the queue empty. */
  lemma OneWakeup<M>(run: seq<State<M>>, steps: seq<Step<M>>, i: nat)
    requires Run(run, steps) && i < |run|
    ensures var s := run[i];
            s.mq != [] <==> Posting in s.senders || Drain in s.tasks || s.worker == Test || s.worker == Swap
    ensures Total(run[i].senders, PostingOne) + Total(run[i].tasks, DrainOne) <= 1
    ensures run[i].worker == Test || run[i].worker == Swap ==> Posting !in run[i].senders && Drain !in run[i].tasks
  {
    RunKeepsInv(run, steps, i);
    TotalZero(run[i].senders, PostingOne);
    TotalZero(run[i].tasks, DrainOne);
  }

  /** Exactly once and in order: what was handled, what the worker still holds and what waits is what was pushed, and
      the tasks that were taken and those that wait are those that were posted. */
  lemma ExactlyOnceInOrder<M>(run: seq<State<M>>, steps: seq<Step<M>>, i: nat)
    requires Run(run, steps) && i < |run|
    ensures run[i].pos <= |run[i].swapped|
    ensures run[i].handled + run[i].swapped[run[i].pos..] + run[i].mq == run[i].pushed
    ensures run[i].taken + run[i].tasks == run[i].posted
  {
    RunKeepsInv(run, steps, i);
  }

  // Progress

  function Rank(w: Worker): nat {
    match w
    case Test => 3
    case Swap => 2
    case Handle => 1
    case _ => 0
  }

  function Work<M>(s: State<M>): nat
    requires s.pos <= |s.swapped|
  {
    |s.mq| + (|s.swapped| - s.pos) + 6 * Total(s.senders, PostingOne) + 4 * Total(s.tasks, DrainOne)
      + |s.tasks| + Rank(s.worker)
  }

  lemma InnerStepWorks<M>(s: State<M>, step: Step<M>)
    requires Inv(s) && Enabled(s, step) && Inner(step)
    ensures Apply(s, step).pos <= |Apply(s, step).swapped| && Work(Apply(s, step)) < Work(s)
  {
    StepKeepsInv(s, step);
    if step.Take? {
      TotalFirst(s.tasks, DrainOne);
    }
    if step.PostDrain? {
      TotalUpdate(s.senders, step.poster, Free, PostingOne);
      TotalAppend(s.tasks, Drain, DrainOne);
    }
  }

  /** With nothing asked for from outside between `i` and `j`, the run can take no more than `Work` steps. */
  lemma {:induction false} WorkBounds<M>(run: seq<State<M>>, steps: seq<Step<M>>, i: nat, j: nat)
    requires Run(run, steps) && i <= j < |run| && forall k :: i <= k < j ==> Inner(steps[k])
    ensures run[i].pos <= |run[i].swapped| && run[j].pos <= |run[j].swapped|
    ensures j - i + Work(run[j]) <= Work(run[i])
  {
    hide Inv, Work, Enabled, Apply, Init;
    RunKeepsInv(run, steps, i);
    if i < j {
      WorkBounds(run, steps, i, j - 1);
      RunKeepsInv(run, steps, j - 1);
      assert Next(run[j - 1], steps[j - 1], run[j]);
      InnerStepWorks(run[j - 1], steps[j - 1]);
    }
  }

  /** A run that can go no further by itself has taken every task and handled every message, unless a task made the
      worker exit; with `WorkBounds`, every run gets there. */
  lemma StopsWhenAllHandled<M>(run: seq<State<M>>, steps: seq<Step<M>>, i: nat)
    requires Run(run, steps) && i < |run| && forall step: Step<M> :: Inner(step) ==> !Enabled(run[i], step)
    ensures run[i].worker == Exited || (run[i].handled == run[i].pushed && run[i].taken == run[i].posted)
  {
    var s := run[i];
    RunKeepsInv(run, steps, i);
    TotalZero(s.senders, PostingOne);
    assert forall step: Step<M> :: Inner(step) ==> !Enabled(s, step);
    if Posting in s.senders {
      var t :| 0 <= t < |s.senders| && s.senders[t] == Posting;
      assert Inner<M>(PostDrain(t)) && Enabled<M>(s, PostDrain(t));
      assert false;
    }
    var step := match s.worker
      case Test => LookAtSize
      case Swap => SwapOut
      case Handle => if s.pos < |s.swapped| then HandleOne else EndDrain
      case _ => Take(false);
    assert Inner<M>(step) && !Enabled<M>(s, step);
  }
}
