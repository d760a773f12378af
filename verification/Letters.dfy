/** Messages to services that are gone: the router numbers sessions, and a worker answers a dead letter with an error.
    The router's checks, the reply and its arithmetic are functions; a whole system is any number of sends, deaths and
    births of services, and letters handled in any order. */
module Letters {
  import opened Options
  import opened ServiceIds

  type Int32 = x: int | -0x8000_0000 <= x < 0x8000_0000

  const PTYPE_UNKNOWN: nat := 0
  const PTYPE_ERROR: nat := 5

  datatype Message = Message(kind: nat, sender: nat, receiver: nat, session: Int32, broadcast: bool)

  /** Negation in 32 bits: the least number is its own negation. */
  function Negate(x: Int32): Int32 {
    if x == -0x8000_0000 then x else -x
  }

  /** `send_message` with `workers` workers: `None` when the message is refused. */
  function Posted(workers: nat, m: Message): Option<Message> {
    if m.kind == PTYPE_UNKNOWN || m.receiver == 0 || !WorkerIdValid(WorkerId(m.receiver), workers) then None
    else Some(m)
  }

  /** `router::send` */
  function Sent(workers: nat, sender: nat, receiver: nat, session: Int32, kind: nat): Option<Message> {
    Posted(workers, Message(kind, sender, receiver, Negate(session), false))
  }

  /** `router::response`; a message is created with sender 0. */
  function Response(workers: nat, to: nat, session: Int32, kind: nat): Option<Message> {
    if to == 0 || session == 0 then None else Posted(workers, Message(kind, 0, to, session, false))
  }

  /** What `handle_one` posts for a message whose receiver may be gone. */
  function Handled(workers: nat, alive: set<nat>, m: Message): Option<Message> {
    if m.broadcast || m.receiver in alive || m.sender == 0 then None
    else Response(workers, m.sender, Negate(m.session), PTYPE_ERROR)
  }

  /** A request that reaches a dead service is answered exactly when its session is not 0 and its sender is a service of
      some worker; the answer is an error that carries the caller's own session, and it is never answered itself. */
  lemma DeadLetterAnswered(workers: nat, alive: set<nat>, sender: nat, receiver: nat, session: Int32, kind: nat)
    requires Sent(workers, sender, receiver, session, kind).Some? && receiver !in alive
    ensures var m := Sent(workers, sender, receiver, session, kind).value;
            && (Handled(workers, alive, m).Some?
                <==> sender != 0 && session != 0 && WorkerIdValid(WorkerId(sender), workers))
            && (Handled(workers, alive, m).Some?
                ==> Handled(workers, alive, m).value == Message(PTYPE_ERROR, 0, sender, session, false))
    ensures var m := Sent(workers, sender, receiver, session, kind).value;
            Handled(workers, alive, m).Some? ==>
              forall later :: Handled(workers, later, Handled(workers, alive, m).value) == None
  {
    assert Negate(Negate(session)) == session;
  }

  /** What the router takes: a request with a type reaches the worker that drew the receiver's id if there is such a
      worker, and carries the negated session; any other is refused. */
  lemma ReachesWorker(workers: nat, sender: nat, w: WorkerNo, receiver: nat, session: Int32, kind: nat)
    requires IsId(w, receiver)
    ensures Sent(workers, sender, receiver, session, kind).Some? <==> kind != PTYPE_UNKNOWN && w <= workers
    ensures Sent(workers, sender, receiver, session, kind).Some? ==>
      Sent(workers, sender, receiver, session, kind).value
        == Message(kind, sender, receiver, if session == -0x8000_0000 then session else -session, false)
    ensures Response(workers, receiver, session, kind).Some? <==> session != 0 && kind != PTYPE_UNKNOWN && w <= workers
  {
    IdMapsBack(w, 0, receiver);
  }

  // Whole runs

  /** Every posted message has a serial number. `letters` are all that were ever posted, `flight` those not yet handled,
      `handed` maps a letter to the one service it was handed to, and `answers` a dead letter to its answer. */
  datatype System = System(
    alive: set<nat>, next: nat, letters: map<nat, Message>, flight: set<nat>, handed: map<nat, nat>,
    answers: map<nat, nat>)

  datatype Event =
    | Send(sender: nat, receiver: nat, session: Int32, kind: nat)
    | Broadcast(sender: nat, kind: nat)
    | Respond(to: nat, session: Int32, kind: nat)   // a response from anywhere but a dead letter
    | Services(alive: set<nat>)
    | Handle(serial: nat)

  function Post(s: System, m: Option<Message>): System {
    if m.None? then s
    else s.(next := s.next + 1, letters := s.letters[s.next := m.value], flight := s.flight + {s.next})
  }

  /** A letter that is no broadcast goes to the service it is addressed to, if that lives. */
  function Handed(s: System, n: nat): map<nat, nat>
    requires n in s.letters
  {
    var m := s.letters[n];
    if !m.broadcast && m.receiver in s.alive then s.handed[n := m.receiver] else s.handed
  }

  predicate Enabled(s: System, e: Event) {
    e.Handle? ==> e.serial in s.flight && e.serial in s.letters
  }

  function Apply(workers: nat, s: System, e: Event): System
    requires Enabled(s, e)
  {
    match e
    case Send(sender, receiver, session, kind) => Post(s, Sent(workers, sender, receiver, session, kind))
    case Broadcast(sender, kind) => Post(s, Some(Message(kind, sender, 0, 0, true)))
    case Respond(to, session, kind) => Post(s, Response(workers, to, session, kind))
    case Services(alive) => s.(alive := alive)
    case Handle(n) =>
      var reply := Handled(workers, s.alive, s.letters[n]);
      var s' := s.(flight := s.flight - {n}, handed := Handed(s, n));
      if reply.None? then s' else Post(s'.(answers := s.answers[n := s.next]), reply)
  }

  ghost predicate Next(workers: nat, s: System, e: Event, s': System) {
    Enabled(s, e) && s' == Apply(workers, s, e)
  }

  ghost predicate Run(workers: nat, run: seq<System>, events: seq<Event>) {
    && |run| == |events| + 1
    && run[0].next == 0 && run[0].letters == map[] && run[0].flight == {}
    && run[0].handed == map[] && run[0].answers == map[]
    && forall i, j :: 0 <= i < j < |run| && j == i + 1 ==> Next(workers, run[i], events[i], run[j])
  }

  /** `r` is what a dead letter `m` is answered with. */
  predicate Answers(m: Message, r: Message) {
    && m.sender != 0 && !m.broadcast && m.session != 0
    && r == Message(PTYPE_ERROR, 0, m.sender, Negate(m.session), false)
  }

  ghost predicate Inv(s: System) {
    Serials(s) && Replies(s)
  }

  ghost predicate Serials(s: System) {
    && (forall n :: n in s.letters ==> n < s.next)
    && (forall n :: n in s.flight ==> n in s.letters)
    && (forall n :: n in s.handed ==> n in s.letters && n !in s.flight)
    && (forall n :: n in s.answers ==>
         n !in s.flight && n in s.letters && n < s.answers[n] && s.answers[n] in s.letters)
  }

  ghost predicate Replies(s: System)
    requires Serials(s)
  {
    && (forall n :: n in s.answers ==> Answers(s.letters[n], s.letters[s.answers[n]]))
    && (forall n, k :: n in s.answers && k in s.answers && s.answers[n] == s.answers[k] ==> n == k)
  }

  ghost predicate Grows(s: System, s': System) {
    && (forall n :: n in s.letters ==> n in s'.letters && s'.letters[n] == s.letters[n])
    && (forall n :: n in s.answers ==> n in s'.answers && s'.answers[n] == s.answers[n])
  }

  lemma PostKeepsInv(s: System, m: Option<Message>)
    requires Inv(s)
    ensures Inv(Post(s, m)) && Grows(s, Post(s, m))
  {
  }

  function Answered(s: System, n: nat, r: Message, handed: map<nat, nat>): System {
    Post(s.(flight := s.flight - {n}, handed := handed, answers := s.answers[n := s.next]), Some(r))
  }

  lemma AnswerKeepsSerials(s: System, n: nat, r: Message, handed: map<nat, nat>)
    requires Serials(s) && n in s.flight
    requires forall k :: k in handed ==> k in s.handed || k == n
    ensures Serials(Answered(s, n, r, handed)) && Grows(s, Answered(s, n, r, handed))
  {
    assert n !in s.answers;
  }

  lemma AnswerKeepsInv(s: System, n: nat, r: Message, handed: map<nat, nat>)
    requires Inv(s) && n in s.flight && n in s.letters && Answers(s.letters[n], r)
    requires forall k :: k in handed ==> k in s.handed || k == n
    ensures Inv(Answered(s, n, r, handed)) && Grows(s, Answered(s, n, r, handed))
  {
    hide Answers;
    AnswerKeepsSerials(s, n, r, handed);
  }

  lemma EventKeepsInv(workers: nat, s: System, e: Event)
    requires Inv(s) && Enabled(s, e)
    ensures Inv(Apply(workers, s, e)) && Grows(s, Apply(workers, s, e))
  {
    match e
    case Send(sender, receiver, session, kind) => PostKeepsInv(s, Sent(workers, sender, receiver, session, kind));
    case Broadcast(sender, kind) => PostKeepsInv(s, Some(Message(kind, sender, 0, 0, true)));
    case Respond(to, session, kind) => PostKeepsInv(s, Response(workers, to, session, kind));
    case Services(_) =>
    case Handle(n) =>
      var reply := Handled(workers, s.alive, s.letters[n]);
      if reply.Some? {
        hide Inv, Grows, Post, Handed;
        AnswerKeepsInv(s, n, reply.value, Handed(s, n));
      }
  }

  lemma {:induction false} RunKeepsInv(workers: nat, run: seq<System>, events: seq<Event>, i: nat)
    requires Run(workers, run, events) && i < |run|
    ensures Inv(run[i])
  {
    if i > 0 {
      RunKeepsInv(workers, run, events, i - 1);
      assert Next(workers, run[i - 1], events[i - 1], run[i]);
      EventKeepsInv(workers, run[i - 1], events[i - 1]);
    }
  }

  lemma AnswerOnRecord(s: System, n: nat)
    requires Inv(s) && n in s.answers
    ensures n in s.letters && s.answers[n] in s.letters && Answers(s.letters[n], s.letters[s.answers[n]])
    ensures s.answers[n] !in s.answers
    ensures forall k :: k in s.answers && s.answers[k] == s.answers[n] ==> k == n
  {
  }

  /** In every run each dead letter has at most one answer, which never changes; it goes to the letter's sender with the
      letter's session negated; no answer belongs to two letters; and an answer is itself never answered. */
  lemma {:induction false} OneAnswer(workers: nat, run: seq<System>, events: seq<Event>, i: nat, j: nat, n: nat)
    requires Run(workers, run, events) && i <= j < |run| && n in run[i].answers
    ensures n in run[j].answers && run[j].answers[n] == run[i].answers[n]
    ensures n in run[j].letters && run[j].answers[n] in run[j].letters
    ensures Answers(run[j].letters[n], run[j].letters[run[j].answers[n]])
    ensures run[j].answers[n] !in run[j].answers
    ensures forall k :: k in run[j].answers && run[j].answers[k] == run[j].answers[n] ==> k == n
  {
    hide Inv, Apply;
    RunKeepsInv(workers, run, events, j);
    if i < j {
      OneAnswer(workers, run, events, i, j - 1, n);
      RunKeepsInv(workers, run, events, j - 1);
      assert Next(workers, run[j - 1], events[j - 1], run[j]);
      EventKeepsInv(workers, run[j - 1], events[j - 1]);
    }
    AnswerOnRecord(run[j], n);
  }

  lemma {:induction false} LetterStays(workers: nat, run: seq<System>, events: seq<Event>, i: nat, j: nat, n: nat)
    requires Run(workers, run, events) && i <= j < |run| && n in run[i].letters
    ensures n in run[j].letters && run[j].letters[n] == run[i].letters[n]
  {
    hide Inv, Apply;
    if i < j {
      LetterStays(workers, run, events, i, j - 1, n);
      RunKeepsInv(workers, run, events, j - 1);
      assert Next(workers, run[j - 1], events[j - 1], run[j]);
      EventKeepsInv(workers, run[j - 1], events[j - 1]);
    }
  }

  /** A request with a type to an id drawn by one of the workers is posted, as is every broadcast, and stays on record;
      its serial number is its own. */
  lemma RequestPosted(workers: nat, run: seq<System>, events: seq<Event>, i: nat, j: nat, w: WorkerNo)
    requires Run(workers, run, events) && i < j < |run|
    ensures run[i].next !in run[i].letters
    ensures events[i].Send? && IsId(w, events[i].receiver) && events[i].kind != PTYPE_UNKNOWN && w <= workers ==>
      && run[i].next in run[j].letters
      && var m := run[j].letters[run[i].next];
         m.sender == events[i].sender && m.receiver == events[i].receiver && m.kind == events[i].kind && !m.broadcast
    ensures events[i].Broadcast? ==>
      && run[i].next in run[j].letters
      && var m := run[j].letters[run[i].next]; m.broadcast && m.sender == events[i].sender && m.kind == events[i].kind
  {
    RunKeepsInv(workers, run, events, i);
    var i' := i + 1;
    assert Next(workers, run[i], events[i], run[i']);
    if events[i].Send? && IsId(w, events[i].receiver) {
      ReachesWorker(workers, events[i].sender, w, events[i].receiver, events[i].session, events[i].kind);
    }
    if run[i].next in run[i'].letters {
      LetterStays(workers, run, events, i', j, run[i].next);
    }
  }

  /** A request sent at `i` that a dead service's worker takes at `k` has from then on exactly one answer: an error to
      the caller under the caller's own session. */
  lemma CallerIsTold(workers: nat, run: seq<System>, events: seq<Event>, i: nat, k: nat, j: nat)
    requires Run(workers, run, events) && i < k < j < |run| && events[i].Send? && events[k] == Handle(run[i].next)
    requires Sent(workers, events[i].sender, events[i].receiver, events[i].session, events[i].kind).Some?
    requires events[i].receiver !in run[k].alive
    requires events[i].sender != 0 && events[i].session != 0 && WorkerIdValid(WorkerId(events[i].sender), workers)
    ensures run[i].next in run[j].answers
    ensures run[j].answers[run[i].next] in run[j].letters
    ensures run[j].letters[run[j].answers[run[i].next]]
         == Message(PTYPE_ERROR, 0, events[i].sender, events[i].session, false)
  {
    var n, e, i', k' := run[i].next, events[i], i + 1, k + 1;
    assert Next(workers, run[i], events[i], run[i']);
    LetterStays(workers, run, events, i', k, n);
    LetterStays(workers, run, events, i', j, n);
    assert Next(workers, run[k], events[k], run[k']);
    DeadLetterAnswered(workers, run[k].alive, e.sender, e.receiver, e.session, e.kind);
    OneAnswer(workers, run, events, k', j, n);
    assert Negate(Negate(e.session)) == e.session;
  }

  /** Event `k` is the handling of letter `n`. */
  ghost predicate Taken(events: seq<Event>, n: nat, k: nat, j: nat) {
    k < j <= |events| && events[k] == Handle(n)
  }

  ghost predicate Unsettled(s: System, n: nat) {
    n in s.letters && n in s.flight && n !in s.handed && n !in s.answers
  }

  /** What has become of letter `n`, handled while the services in `alive` lived. */
  ghost predicate Settled(workers: nat, s: System, n: nat, alive: set<nat>) {
    n in s.letters && n !in s.flight &&
    var m := s.letters[n];
    && (n in s.handed <==> !m.broadcast && m.receiver in alive)
    && (n in s.handed ==> s.handed[n] == m.receiver)
    && (n in s.answers
        <==> !m.broadcast && m.receiver !in alive
             && m.sender != 0 && m.session != 0 && WorkerIdValid(WorkerId(m.sender), workers))
  }

  lemma NewIsUnsettled(workers: nat, s: System, e: Event, n: nat)
    requires Inv(s) && Enabled(s, e) && n in Apply(workers, s, e).letters && n !in s.letters
    ensures n in Apply(workers, s, e).flight && Unsettled(Apply(workers, s, e), n) && e != Handle(n)
  {
  }

  lemma HandleSettles(workers: nat, s: System, n: nat)
    requires Inv(s) && Enabled(s, Handle(n))
    ensures n !in Apply(workers, s, Handle(n)).flight
    ensures Settled(workers, Apply(workers, s, Handle(n)), n, s.alive)
  {
  }

  lemma OthersKeep(workers: nat, s: System, e: Event, n: nat, alive: set<nat>)
    requires Inv(s) && Enabled(s, e) && n in s.letters && e != Handle(n)
    ensures n in Apply(workers, s, e).flight <==> n in s.flight
    ensures Unsettled(s, n) ==> Unsettled(Apply(workers, s, e), n)
    ensures Settled(workers, s, n, alive) ==> Settled(workers, Apply(workers, s, e), n, alive)
  {
  }

  /** Every posted letter is in flight or was handled exactly once, and what became of it then is settled: one whose
      receiver lived was handed to that service and to no other and is never answered; one whose receiver was gone is
      handed to nobody, and answered exactly if it has a session and its sender is a service of some worker. */
  lemma {:induction false} Fate(workers: nat, run: seq<System>, events: seq<Event>, j: nat, n: nat) returns (k: nat)
    requires Run(workers, run, events) && j < |run| && n in run[j].letters
    ensures n in run[j].flight ==> Unsettled(run[j], n) && forall i :: !Taken(events, n, i, j)
    ensures k < |run|
    ensures n !in run[j].flight ==>
      && Taken(events, n, k, j) && Settled(workers, run[j], n, run[k].alive)
      && forall i :: Taken(events, n, i, j) ==> i == k
  {
    hide Inv, Apply, Settled, Unsettled;
    k := 0;
    if j > 0 {
      RunKeepsInv(workers, run, events, j - 1);
      var s, e := run[j - 1], events[j - 1];
      assert Next(workers, s, e, run[j]);
      if n !in s.letters {
        NewIsUnsettled(workers, s, e, n);
        forall i: nat | Taken(events, n, i, j) ensures false {
          var i' := i + 1;
          assert Next(workers, run[i], events[i], run[i']);
          LetterStays(workers, run, events, i, j - 1, n);
        }
      } else {
        k := Fate(workers, run, events, j - 1, n);
        assert forall i :: Taken(events, n, i, j) ==> i == j - 1 || Taken(events, n, i, j - 1);
        if e == Handle(n) {
          HandleSettles(workers, s, n);
          k := j - 1;
        } else {
          OthersKeep(workers, s, e, n, run[k].alive);
        }
      }
    }
  }
}
