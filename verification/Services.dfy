/** A worker's services and state: the tasks that add a service, remove one and stop the worker, and the thread that
    runs them. What `make_service` and a service's `init` answer, the order of the tasks and the start of the thread are
    arbitrary. */
module Services {
  import opened Options
  import opened ServiceIds

  datatype State = Init | Ready | Stopping | Exited

  datatype Snapshot<S> = Snapshot(state: State, count: nat, uuid: nat, services: map<nat, S>)

  datatype Task<S> =
    | Add(made: Option<S>, initOk: bool)
    | Remove(serviceid: nat)
    | Stop
    | Other   // any task that touches neither the services nor the state

  /** What holds between tasks. */
  ghost predicate Inv<S>(w: WorkerNo, s: Snapshot<S>) {
    && s.count == |s.services| && s.uuid < WORD
    && (forall id :: id in s.services ==> IsId(w, id))
    && (s.state == Init || s.state == Exited ==> s.services == map[])
    && (s.state == Stopping ==> s.services != map[])
  }

  // What each task does

  /** After `n` draws the search stops: at the first free id, or without one after MAX_UUID draws. */
  ghost predicate Searched<S>(w: WorkerNo, s: Snapshot<S>, n: nat) {
    && 0 < n <= MAX_UUID
    && (forall k: nat :: k < n - 1 ==> Draw(w, s.uuid, k) in s.services)
    && (Draw(w, s.uuid, n - 1) in s.services ==> n == MAX_UUID)
  }

  ghost predicate Added<S>(w: WorkerNo, s: Snapshot<S>, s': Snapshot<S>, task: Task<S>, reply: nat)
    requires task.Add?
  {
    if s.state != Ready then s' == s && reply == 0
    else exists n: nat ::
      Searched(w, s, n) && AddedAt(Draw(w, s.uuid, n - 1), s.(uuid := (s.uuid + n) % WORD), s', task, reply)
  }

  ghost predicate AddedAt<S>(id: nat, s: Snapshot<S>, s': Snapshot<S>, task: Task<S>, reply: nat)
    requires task.Add?
  {
    if task.made.Some? && task.initOk && id !in s.services
    then s' == s.(services := s.services[id := task.made.value], count := s.count + 1) && reply == id
    else s' == s && reply == 0
  }

  function Removed<S>(s: Snapshot<S>, serviceid: nat): Snapshot<S> {
    var left := s.services - {serviceid};
    s.(services := left, count := |left|, state := if left == map[] && s.state == Stopping then Exited else s.state)
  }

  function Stopped<S>(s: Snapshot<S>): Snapshot<S> {
    if s.state == Stopping || s.state == Exited then s
    else s.(state := if s.services == map[] then Exited else Stopping)
  }

  ghost predicate Does<S>(w: WorkerNo, s: Snapshot<S>, task: Task<S>, s': Snapshot<S>) {
    match task
    case Add(_, _) => exists reply: nat :: Added(w, s, s', task, reply)
    case Remove(id) => s' == Removed(s, id)
    case Stop => s' == Stopped(s)
    case Other => s' == s
  }

  // The worker

  class Worker<S> {
    const id: WorkerNo
    var state: State
    var count: nat
    var uuid: nat
    var services: map<nat, S>

    ghost function Now(): Snapshot<S>
      reads this
    {
      Snapshot(state, count, uuid, services)
    }

    constructor (id: WorkerNo)
      ensures this.id == id && Now() == Snapshot(Init, 0, 0, map[]) && Inv(id, Now())
    {
      this.id := id;
      state, count, uuid, services := Init, 0, 0, map[];
    }

    /** `uuid()` */
    method NextId() returns (serviceid: nat)
      requires uuid < WORD
      modifies this`uuid
      ensures serviceid == Uuid(id, old(uuid)) && uuid == (old(uuid) + 1) % WORD
    {
      serviceid := uuid % MAX_UUID;
      serviceid := serviceid + 1;
      serviceid := serviceid + id * WORKER;
      uuid := (uuid + 1) % WORD;
    }

    /** The search for an unused id; with all draws in use it leaves the last one. */
    method FindId() returns (serviceid: nat, ghost n: nat)
      requires Inv(id, Now())
      modifies this`uuid
      ensures n > 0 && Searched(id, old(Now()), n)
      ensures serviceid == Draw(id, old(uuid), n - 1) && uuid == (old(uuid) + n) % WORD
      ensures serviceid !in services <==> SomeDrawFree(id, old(uuid), services.Keys)
    {
      n, serviceid := 0, 0;
      var counter := 0;
      hide Inv, Draw, Uuid, SomeDrawFree;
      while true
        invariant n == counter <= MAX_UUID && uuid == (old(uuid) + n) % WORD
        invariant forall k: nat :: k < n ==> Draw(id, old(uuid), k) in services
        invariant n > 0 ==> serviceid == Draw(id, old(uuid), n - 1)
        decreases MAX_UUID - counter
      {
        if counter >= MAX_UUID {
          break;
        }
        NextDraw(id, old(uuid), n);
        serviceid := NextId();
        counter, n := counter + 1, n + 1;
        if serviceid !in services {
          break;
        }
      }
      SearchedIff(id, old(Now()), n);
    }

    /** The task posted by `add_service`; `reply` is what its creator is told, 0 for a failure. It fails exactly when
        the worker is not ready, the type is unknown, the service refuses its configuration, or the search misses. */
    method AddService(made: Option<S>, initOk: bool) returns (reply: nat)
      requires Inv(id, Now())
      modifies this
      ensures Inv(id, Now()) && Added(id, old(Now()), Now(), Add(made, initOk), reply)
      ensures reply != 0 <==> old(state) == Ready && made.Some? && initOk
                              && |old(services.Keys) + Missed(id, old(uuid))| < MAX_UUID
      ensures reply != 0 ==> reply !in old(services) && WorkerId(reply) == id && made.Some?
                             && reply in services && services[reply] == made.value
      ensures forall k :: k in services && k != reply <==> k in old(services)
      ensures forall k :: k in old(services) && k in services ==> services[k] == old(services)[k]
    {
      hide Inv, IsId, Draw, Missed, SomeDrawFree, WorkerId, Searched;
      ghost var s := Now();
      OwnIds(id, s);
      if state != Ready {
        reply := 0;
      } else {
        var serviceid, n := FindId();
        if made.None? || !initOk || serviceid in services {
          reply := 0;
        } else {
          services := services[serviceid := made.value];
          count := count + 1;
          reply := serviceid;
        }
        assert Added(id, s, Now(), Add(made, initOk), reply) by {
          assert AddedAt(serviceid, s.(uuid := (s.uuid + n) % WORD), Now(), Add(made, initOk), reply);
        }
      }
      AddKeepsInv(id, s, Now(), Add(made, initOk), reply);
      SearchSucceeds(id, s.uuid, s.services.Keys);
      AddReplies(id, s, Now(), Add(made, initOk), reply);
      AddChanges(id, s, Now(), Add(made, initOk), reply);
    }

    /** The task posted by `remove_service`. */
    method RemoveService(serviceid: nat) returns (found: bool)
      requires Inv(id, Now())
      modifies this
      ensures Inv(id, Now()) && Now() == Removed(old(Now()), serviceid) && found == (serviceid in old(services))
    {
      hide Inv;
      ghost var s := Now();
      OwnCount(id, s);
      found := serviceid in services;
      Without(services, serviceid);
      if found {
        count := count - 1;
        services := services - {serviceid};
      }
      if |services| == 0 && state == Stopping {
        state := Exited;
      }
      TaskKeepsInv(id, s, Task.Remove(serviceid), Now());
    }

    /** The task posted by `stop`. */
    method StopWorker()
      requires Inv(id, Now())
      modifies this
      ensures Inv(id, Now()) && Now() == Stopped(old(Now()))
    {
      if state == Stopping || state == Exited {
        return;
      }
      if |services| == 0 {
        state := Exited;
        return;
      }
      state := Stopping;
    }

    method RunTask(task: Task<S>)
      requires Inv(id, Now())
      modifies this
      ensures Inv(id, Now()) && Does(id, old(Now()), task, Now())
    {
      hide Inv, Added, Removed, Stopped, Missed, WorkerId;
      match task {
        case Add(made, initOk) =>
          var reply := AddService(made, initOk);
        case Remove(serviceid) =>
          var found := RemoveService(serviceid);
        case Stop =>
          StopWorker();
        case Other =>
      }
    }

    /** The thread: it becomes ready and runs tasks until one makes it exit; `done` is how many it took. */
    method Run(tasks: seq<Task<S>>) returns (done: nat, ghost run: seq<Snapshot<S>>)
      requires Inv(id, Now()) && state == Init
      modifies this
      ensures done <= |tasks| && (done < |tasks| ==> state == Exited)
      ensures IsRun(id, run, tasks[..done]) && run[0] == old(Now()).(state := Ready) && run[done] == Now()
    {
      state := Ready;
      done, run := 0, [Now()];
      while done < |tasks|
        invariant done <= |tasks| && Inv(id, Now())
        invariant IsRun(id, run, tasks[..done]) && run[0] == old(Now()).(state := Ready) && run[done] == Now()
      {
        hide IsRun, Inv, Does;
        if state == Exited {
          break;
        }
        RunTask(tasks[done]);
        Extend(id, run, tasks[..done], tasks[done], Now());
        assert tasks[..done + 1] == tasks[..done] + [tasks[done]];
        run := run + [Now()];
        done := done + 1;
      }
    }
  }

  lemma OwnCount<S>(w: WorkerNo, s: Snapshot<S>)
    requires Inv(w, s)
    ensures s.count == |s.services|
  {}

  lemma OwnIds<S>(w: WorkerNo, s: Snapshot<S>)
    requires Inv(w, s)
    ensures s.uuid < WORD && forall k :: k in s.services.Keys ==> IsId(w, k)
  {}

  lemma Without<S>(m: map<nat, S>, k: nat)
    ensures |m - {k}| == |m| - (if k in m then 1 else 0)
    ensures k !in m ==> m - {k} == m
    ensures m - {k} == map[] <==> |m - {k}| == 0
  {
    if k in m {
      assert m == (m - {k})[k := m[k]];
    } else {
      assert m - {k} == m;
    }
  }

  // Over whole runs

  /** A ready worker and the tasks it runs one after the other, none after it has exited. */
  ghost predicate IsRun<S>(w: WorkerNo, run: seq<Snapshot<S>>, tasks: seq<Task<S>>) {
    && |run| == |tasks| + 1 && run[0].state == Ready && Inv(w, run[0])
    && forall i, j :: 0 <= i < j < |run| && j == i + 1 ==> Next(w, run[i], tasks[i], run[j])
  }

  ghost predicate Next<S>(w: WorkerNo, s: Snapshot<S>, task: Task<S>, s': Snapshot<S>) {
    s.state != Exited && Does(w, s, task, s')
  }

  lemma Extend<S>(w: WorkerNo, run: seq<Snapshot<S>>, tasks: seq<Task<S>>, task: Task<S>, s: Snapshot<S>)
    requires IsRun(w, run, tasks) && Next(w, run[|tasks|], task, s)
    ensures IsRun(w, run + [s], tasks + [task])
  {
    hide Inv, Next;
    var run', tasks' := run + [s], tasks + [task];
    assert run'[0] == run[0];
    forall i, j | 0 <= i < j < |run'| && j == i + 1 ensures Next(w, run'[i], tasks'[i], run'[j]) {
      if j < |run| {
        assert Next(w, run[i], tasks[i], run[j]);
      } else {
        assert run'[i] == run[|tasks|] && tasks'[i] == task && run'[j] == s;
      }
    }
  }

  lemma NextDraw(w: WorkerNo, u: nat, n: nat)
    ensures Uuid(w, (u + n) % WORD) == Draw(w, u, n) && ((u + n) % WORD + 1) % WORD == (u + (n + 1)) % WORD
  {
  }

  lemma SearchedIff<S>(w: WorkerNo, s: Snapshot<S>, n: nat)
    requires Searched(w, s, n)
    ensures Draw(w, s.uuid, n - 1) !in s.services <==> SomeDrawFree(w, s.uuid, s.services.Keys)
  {
    hide Draw;
    if SomeDrawFree(w, s.uuid, s.services.Keys) {
      var k: nat :| k < MAX_UUID && Draw(w, s.uuid, k) !in s.services.Keys;
      assert k >= n - 1;
    }
  }

  lemma AddedAtReplies<S>(id: nat, u: nat, s: Snapshot<S>, s': Snapshot<S>, task: Task<S>, reply: nat)
    requires id != 0 && task.Add? && AddedAt(id, s.(uuid := u), s', task, reply)
    ensures reply != 0 <==> task.made.Some? && task.initOk && id !in s.services
    ensures reply != 0 ==> reply == id && reply in s'.services
  {
  }

  /** `id` is the `k`-th id drawn, and the first one that is free. */
  ghost predicate FirstFree(w: WorkerNo, u: nat, live: set<nat>, k: nat, id: nat) {
    id == Draw(w, u, k) && id !in live && forall j: nat :: j < k ==> Draw(w, u, j) in live
  }

  /** What the creator of a service is told: the first free id. */
  lemma AddReplies<S>(w: WorkerNo, s: Snapshot<S>, s': Snapshot<S>, task: Task<S>, reply: nat)
    requires task.Add? && Added(w, s, s', task, reply)
    ensures reply != 0
        <==> s.state == Ready && task.made.Some? && task.initOk && SomeDrawFree(w, s.uuid, s.services.Keys)
    ensures reply != 0 ==> reply !in s.services && reply in s'.services && WorkerId(reply) == w
    ensures reply != 0 ==> exists k: nat :: k < MAX_UUID && FirstFree(w, s.uuid, s.services.Keys, k, reply)
  {
    hide Draw, AddedAt, SomeDrawFree, WorkerId;
    if s.state == Ready {
      var n: nat :| Searched(w, s, n)
        && AddedAt(Draw(w, s.uuid, n - 1), s.(uuid := (s.uuid + n) % WORD), s', task, reply);
      DrawIsId(w, s.uuid, n - 1);
      SearchedIff(w, s, n);
      AddedAtReplies(Draw(w, s.uuid, n - 1), (s.uuid + n) % WORD, s, s', task, reply);
      assert reply != 0 ==> FirstFree(w, s.uuid, s.services.Keys, n - 1, reply);
    }
  }

  lemma ZeroIsNoId<S>(w: WorkerNo, s: Snapshot<S>)
    requires Inv(w, s)
    ensures 0 !in s.services
  {}

  lemma AddedAtChanges<S>(id: nat, u: nat, s: Snapshot<S>, s': Snapshot<S>, task: Task<S>, reply: nat)
    requires id != 0 && 0 !in s.services && task.Add? && AddedAt(id, s.(uuid := u), s', task, reply)
    ensures reply != 0 ==> task.made.Some? && reply in s'.services && s'.services[reply] == task.made.value
    ensures forall k :: k in s'.services && k != reply <==> k in s.services
    ensures forall k :: k in s.services && k in s'.services ==> s'.services[k] == s.services[k]
    ensures s'.state == s.state && s'.uuid == u
  {
  }

  /** The services after an addition: the new one under the id its creator is told, if any, and all there were. */
  lemma AddChanges<S>(w: WorkerNo, s: Snapshot<S>, s': Snapshot<S>, task: Task<S>, reply: nat)
    requires Inv(w, s) && task.Add? && Added(w, s, s', task, reply)
    ensures reply != 0 ==> task.made.Some? && reply in s'.services && s'.services[reply] == task.made.value
    ensures forall k :: k in s'.services && k != reply <==> k in s.services
    ensures forall k :: k in s.services && k in s'.services ==> s'.services[k] == s.services[k]
  {
    hide Inv, Draw, AddedAt;
    ZeroIsNoId(w, s);
    if s.state == Ready {
      var n: nat :| Searched(w, s, n)
        && AddedAt(Draw(w, s.uuid, n - 1), s.(uuid := (s.uuid + n) % WORD), s', task, reply);
      DrawIsId(w, s.uuid, n - 1);
      AddedAtChanges(Draw(w, s.uuid, n - 1), (s.uuid + n) % WORD, s, s', task, reply);
    }
  }

  lemma NextDrawsDiffer(w: WorkerNo, u: nat, m: nat)
    requires 0 < u && u + m < WORD && m < MAX_UUID - 1
    ensures Draw(w, u - 1, 0) != Draw(w, u, m)
  {
    var q := (u - 1) / MAX_UUID;
    var r := (u - 1) % MAX_UUID;
    if r + m + 1 < MAX_UUID {
      ModuloUnique(u + m, q, r + m + 1);
    } else {
      ModuloUnique(u + m, q + 1, r + m + 1 - MAX_UUID);
    }
  }

  lemma DrawBefore(w: WorkerNo, u: nat, n: nat)
    requires n > 0 && (u + n) % WORD > 0
    ensures Draw(w, (u + n) % WORD - 1, 0) == Draw(w, u, n - 1)
  {
    hide Uuid;
  }

  /** An id that was given out is not among the next 65534 ids drawn, unless the counter wraps. */
  lemma NotDrawnSoon<S>(w: WorkerNo, s: Snapshot<S>, s': Snapshot<S>, task: Task<S>, reply: nat, m: nat)
    requires Inv(w, s) && task.Add? && Added(w, s, s', task, reply) && reply != 0
    requires 0 < s'.uuid && s'.uuid + m < WORD && m < MAX_UUID - 1
    ensures Draw(w, s'.uuid, m) != reply
  {
    hide Inv, AddedAt, Draw;
    ZeroIsNoId(w, s);
    var n: nat :| Searched(w, s, n)
      && AddedAt(Draw(w, s.uuid, n - 1), s.(uuid := (s.uuid + n) % WORD), s', task, reply);
    DrawIsId(w, s.uuid, n - 1);
    AddedAtChanges(Draw(w, s.uuid, n - 1), (s.uuid + n) % WORD, s, s', task, reply);
    AddedAtReplies(Draw(w, s.uuid, n - 1), (s.uuid + n) % WORD, s, s', task, reply);
    DrawBefore(w, s.uuid, n);
    NextDrawsDiffer(w, s'.uuid, m);
  }

  lemma AddedAtKeepsInv<S>(w: WorkerNo, id: nat, u: nat, s: Snapshot<S>, s': Snapshot<S>, task: Task<S>, reply: nat)
    requires Inv(w, s) && s.state == Ready && u < WORD && IsId(w, id)
    requires task.Add? && AddedAt(id, s.(uuid := u), s', task, reply)
    ensures Inv(w, s')
  {
  }

  lemma AddKeepsInv<S>(w: WorkerNo, s: Snapshot<S>, s': Snapshot<S>, task: Task<S>, reply: nat)
    requires Inv(w, s) && task.Add? && Added(w, s, s', task, reply)
    ensures Inv(w, s')
  {
    hide Inv, AddedAt, IsId, Draw;
    if s.state == Ready {
      var n: nat :| Searched(w, s, n)
        && AddedAt(Draw(w, s.uuid, n - 1), s.(uuid := (s.uuid + n) % WORD), s', task, reply);
      DrawIsId(w, s.uuid, n - 1);
      AddedAtKeepsInv(w, Draw(w, s.uuid, n - 1), (s.uuid + n) % WORD, s, s', task, reply);
    }
  }

  lemma DrawIsId(w: WorkerNo, u: nat, k: nat)
    ensures IsId(w, Draw(w, u, k)) && Draw(w, u, k) != 0 && WorkerId(Draw(w, u, k)) == w
  {
    IdMapsBack(w, (u + k) % WORD, Draw(w, u, k));
  }

  lemma TaskKeepsInv<S>(w: WorkerNo, s: Snapshot<S>, task: Task<S>, s': Snapshot<S>)
    requires Inv(w, s) && Does(w, s, task, s')
    ensures Inv(w, s')
  {
    match task
    case Add(_, _) =>
      var reply: nat :| Added(w, s, s', task, reply);
      AddKeepsInv(w, s, s', task, reply);
    case Remove(id) => Without(s.services, id);
    case _ =>
  }

  /** What one task does to service `id`. */
  lemma TaskAndService<S>(w: WorkerNo, s: Snapshot<S>, task: Task<S>, s': Snapshot<S>, id: nat)
    requires Inv(w, s) && Does(w, s, task, s')
    ensures id in s.services && task != Remove(id) ==> id in s'.services && s'.services[id] == s.services[id]
    ensures task == Remove(id) ==> id !in s'.services
    ensures id !in s.services && id in s'.services
        ==> task.Add? && task.initOk && task.made == Some(s'.services[id]) && s.state == Ready
  {
    if task.Add? {
      hide Inv, Added;
      var reply: nat :| Added(w, s, s', task, reply);
      AddReplies(w, s, s', task, reply);
      AddChanges(w, s, s', task, reply);
    }
  }

  lemma TaskMovesForward<S>(w: WorkerNo, s: Snapshot<S>, task: Task<S>, s': Snapshot<S>)
    requires Does(w, s, task, s')
    ensures Order(s.state) <= Order(s'.state)
    ensures s.state != Ready ==> s'.services.Keys <= s.services.Keys
    ensures task == Stop ==> Order(Stopping) <= Order(s'.state)
  {
  }

  lemma {:induction false} RunKeepsInv<S>(w: WorkerNo, run: seq<Snapshot<S>>, tasks: seq<Task<S>>, i: nat)
    requires IsRun(w, run, tasks) && i < |run|
    ensures Inv(w, run[i])
  {
    if i > 0 {
      RunKeepsInv(w, run, tasks, i - 1);
      assert Next(w, run[i - 1], tasks[i - 1], run[i]);
      TaskKeepsInv(w, run[i - 1], tasks[i - 1], run[i]);
    }
  }

  function Order(s: State): nat {
    match s
    case Init => 0
    case Ready => 1
    case Stopping => 2
    case Exited => 3
  }

  /** The state only moves on, and once a worker has left ready no service is ever added. */
  lemma {:induction false} OnlyForward<S>(w: WorkerNo, run: seq<Snapshot<S>>, tasks: seq<Task<S>>, i: nat, j: nat)
    requires IsRun(w, run, tasks) && i <= j < |run|
    ensures Order(run[i].state) <= Order(run[j].state)
    ensures run[i].state == Stopping || run[i].state == Exited ==> run[j].services.Keys <= run[i].services.Keys
  {
    hide Does, Inv;
    if i < j {
      OnlyForward(w, run, tasks, i, j - 1);
      assert Next(w, run[j - 1], tasks[j - 1], run[j]);
      TaskMovesForward(w, run[j - 1], tasks[j - 1], run[j]);
    }
  }

  /** A service stays, and stays the same, until a task removes it, whatever else is added or removed. */
  lemma {:induction false} ServiceStays<S>(
      w: WorkerNo, run: seq<Snapshot<S>>, tasks: seq<Task<S>>, i: nat, j: nat, id: nat)
    requires IsRun(w, run, tasks) && i <= j < |run| && id in run[i].services
    requires forall k :: i <= k < j ==> tasks[k] != Remove(id)
    ensures id in run[j].services && run[j].services[id] == run[i].services[id]
  {
    hide Does, Inv;
    if i < j {
      ServiceStays(w, run, tasks, i, j - 1, id);
      assert Next(w, run[j - 1], tasks[j - 1], run[j]);
      RunKeepsInv(w, run, tasks, j - 1);
      TaskAndService(w, run[j - 1], tasks[j - 1], run[j], id);
    }
  }

  /** It is gone after that task, and a service that is there and was not before was made and initialised by a task
      in between, which found the worker ready and the id free, and nothing has removed it since. */
  lemma {:induction false} ServiceFrom<S>(
      w: WorkerNo, run: seq<Snapshot<S>>, tasks: seq<Task<S>>, i: nat, j: nat, id: nat)
    returns (k: nat)
    requires IsRun(w, run, tasks) && i < j < |run| && id in run[j].services
    requires id !in run[i].services || tasks[i] == Remove(id)
    ensures i <= k < j && tasks[k].Add? && tasks[k].initOk && tasks[k].made == Some(run[j].services[id])
    ensures run[k].state == Ready && id !in run[k].services
    ensures forall m :: k < m < j ==> tasks[m] != Remove(id)
  {
    hide Does, Inv;
    k := j - 1;
    assert Next(w, run[k], tasks[k], run[j]);
    RunKeepsInv(w, run, tasks, k);
    TaskAndService(w, run[k], tasks[k], run[j], id);
    if id in run[k].services {
      k := ServiceFrom(w, run, tasks, i, k, id);
    }
  }

  lemma TaskExits<S>(w: WorkerNo, s: Snapshot<S>, task: Task<S>, s': Snapshot<S>)
    requires Inv(w, s) && s.state != Init && s.state != Exited && Does(w, s, task, s')
    ensures s'.state == Exited
        <==> || (task == Stop && s.state == Ready && s.count == 0)
             || (s.state == Stopping && s.count == 1 && task.Remove? && task.serviceid in s.services)
  {
    if task.Remove? {
      Without(s.services, task.serviceid);
    }
  }

  /** The worker exits in exactly two tasks: a stop that finds it ready without services, and the removal of its last
      service while it is stopping. */
  lemma ExitingTask<S>(w: WorkerNo, run: seq<Snapshot<S>>, tasks: seq<Task<S>>, i: nat)
    requires IsRun(w, run, tasks) && i < |tasks|
    ensures run[i + 1].state == Exited
        <==> || (tasks[i] == Stop && run[i].state == Ready && run[i].count == 0)
             || (run[i].state == Stopping && run[i].count == 1
                 && tasks[i].Remove? && tasks[i].serviceid in run[i].services)
  {
    RunKeepsInv(w, run, tasks, i);
    OnlyForward(w, run, tasks, 0, i);
    var j := i + 1;
    assert Next(w, run[i], tasks[i], run[j]);
    TaskExits(w, run[i], tasks[i], run[j]);
  }

  /** Between tasks `count_` is the number of services, at most MAX_UUID; their ids are not 0 and lead the router to
      this worker; an exited worker has none, and one that was stopped is waiting for at least one unless it has
      exited. */
  lemma Between<S>(w: WorkerNo, run: seq<Snapshot<S>>, tasks: seq<Task<S>>, i: nat)
    requires IsRun(w, run, tasks) && i < |run|
    ensures run[i].count == |run[i].services| <= MAX_UUID
    ensures forall id :: id in run[i].services ==> 0 < id < WORD && WorkerId(id) == w
    ensures run[i].state == Exited ==> run[i].count == 0
    ensures run[i].state == Stopping ==> run[i].count >= 1
    ensures forall k: nat :: k < i && tasks[k] == Stop ==> run[i].state == Stopping || run[i].state == Exited
  {
    RunKeepsInv(w, run, tasks, i);
    Pigeonhole(w, run[i].services.Keys);
    forall id | id in run[i].services ensures 0 < id < WORD && WorkerId(id) == w {
      IdMapsBack(w, 0, id);
    }
    forall k: nat | k < i && tasks[k] == Stop ensures run[i].state == Stopping || run[i].state == Exited {
      var j := k + 1;
      assert Next(w, run[k], tasks[k], run[j]);
      TaskMovesForward(w, run[k], tasks[k], run[j]);
      OnlyForward(w, run, tasks, j, i);
    }
  }
}
