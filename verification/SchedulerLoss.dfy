/**
 src/agents/scheduler.js when an id is submitted again while its task is still around: a pass that
 schedules it can push an active task out of the Map, and that task is then nowhere. For every run: each
 submitted task is in one place exactly when no pass did that.
 */
module SchedulerLoss {
  import opened JsCollections
  import opened Dispatch
  import opened Scheduler
  import opened TaskCounts
  import opened SchedulerRuns

  /** In how many places the task with serial n is. */
  function Places(s: Sched, n: nat): nat {
    Queued(s.queues, BySerial(n)) + Running(s.active, BySerial(n)) + Count(s.ended, BySerial(n))
  }

  // ---------- A pass ----------

  lemma RunningSet(active: Active, k: Id, t: Task, x: Label)
    ensures Running(active.Set(k, t), x) + (if k in active.vals then One(active.vals[k], x) else 0)
      == Running(active, x) + One(t, x)
  {
    if k in active.vals {
      RunningDelete(active, k, x);
      RunningDelete(active.Set(k, t), k, x);
      AmongSame(Without(active.keys, k), active.Delete(k).vals, active.Set(k, t).Delete(k).vals, x);
    } else {
      RunningNew(active, k, t, x);
    }
  }

  lemma {:induction false} ScheduledAtMost(active: Active, taken: seq<Assignment>, x: Label)
    ensures Running(ScheduleAll(active, taken), x) <= Running(active, x) + Count(TasksOf(taken), x)
    ensures ScheduleAll(active, taken).Size() <= active.Size() + |taken|
  {
    if taken != [] {
      var init, last := taken[..|taken| - 1], taken[|taken| - 1];
      ScheduledAtMost(active, init, x);
      TasksOfLast(taken);
      CountConcat(TasksOf(init), [last.task], x);
      CountSingle(last.task, x);
      RunningSet(ScheduleAll(active, init), last.task.id, Placed(last), x);
    }
  }

  lemma FreshLast(active: Active, taken: seq<Assignment>)
    requires taken != [] && FreshIds(active, taken[..|taken| - 1]) && !FreshIds(active, taken)
    ensures taken[|taken| - 1].task.id in ScheduleAll(active, taken[..|taken| - 1]).vals
  {
    var init, last := taken[..|taken| - 1], taken[|taken| - 1];
    ScheduledKeys(active, init, last.task.id);
    if last.task.id !in active.vals {
      var i, j :| 0 <= i < j < |taken| && taken[i].task.id == taken[j].task.id;
      assert init[i] == taken[i];
    }
  }

  /** Ids that are not fresh: some task that was active or just scheduled is pushed out. */
  lemma {:induction false} CollisionLoses(active: Active, taken: seq<Assignment>) returns (n: nat)
    requires !FreshIds(active, taken)
    ensures Running(ScheduleAll(active, taken), BySerial(n))
      < Running(active, BySerial(n)) + Count(TasksOf(taken), BySerial(n))
    ensures ScheduleAll(active, taken).Size() < active.Size() + |taken|
  {
    var init, last := taken[..|taken| - 1], taken[|taken| - 1];
    var before := ScheduleAll(active, init);
    if FreshIds(active, init) {
      FreshLast(active, taken);
      n := before.vals[last.task.id].serial;
      ScheduledAtMost(active, init, BySerial(n));
    } else {
      n := CollisionLoses(active, init);
    }
    TasksOfLast(taken);
    CountConcat(TasksOf(init), [last.task], BySerial(n));
    CountSingle(last.task, BySerial(n));
    RunningSet(before, last.task.id, Placed(last), BySerial(n));
  }

  /** The ids a pass would schedule are different, and none of them is active. */
  ghost predicate FreshPass(s: Sched)
    requires |s.queues| == PRIORITIES
  {
    s.isRunning ==> FreshIds(s.active, Flatten(TakenBy(s)))
  }

  lemma PassPlaces(s: Sched, n: nat)
    requires |s.queues| == PRIORITIES && AgentsOk(s.agents)
    ensures Places(PassStep(s), n) <= Places(s, n)
    ensures FreshPass(s) ==> Places(PassStep(s), n) == Places(s, n)
  {
    if s.isRunning {
      AvailableDistinct(s.agents);
      RoundCount(s.queues, PRIORITIES, Available(s.agents), s.rr, BySerial(n));
      ScheduledAtMost(s.active, Flatten(TakenBy(s)), BySerial(n));
      if FreshPass(s) {
        ScheduledCount(s.active, Flatten(TakenBy(s)), BySerial(n));
      }
    }
  }

  lemma PassLoses(s: Sched) returns (n: nat)
    requires |s.queues| == PRIORITIES && AgentsOk(s.agents) && !FreshPass(s)
    ensures Places(PassStep(s), n) < Places(s, n)
  {
    AvailableDistinct(s.agents);
    n := CollisionLoses(s.active, Flatten(TakenBy(s)));
    RoundCount(s.queues, PRIORITIES, Available(s.agents), s.rr, BySerial(n));
  }

  /** A pass keeps the number of waiting and active tasks exactly when its ids are fresh. */
  lemma PassKeepsNumberIff(s: Sched)
    requires |s.queues| == PRIORITIES && AgentsOk(s.agents)
    ensures Total(PassStep(s).queues) + PassStep(s).active.Size() == Total(s.queues) + s.active.Size() <==> FreshPass(s)
  {
    if s.isRunning {
      var taken := Flatten(TakenBy(s));
      AvailableDistinct(s.agents);
      RoundCount(s.queues, PRIORITIES, Available(s.agents), s.rr, BySerial(0));
      if FreshPass(s) {
        ScheduledCount(s.active, taken, BySerial(0));
      } else {
        var n := CollisionLoses(s.active, taken);
      }
    }
  }

  // ---------- The other steps ----------

  predicate Accepts(s: Sched, maxQueueSize: int, r: Request) {
    r.id != "" && Total(s.queues) < maxQueueSize && 0 <= r.priority < PRIORITIES
  }

  function Enqueue(s: Sched, r: Request): (t: Sched)
    requires |s.queues| == PRIORITIES && 0 <= r.priority < PRIORITIES
    ensures |t.queues| == PRIORITIES
  {
    s.(queues := s.queues[r.priority := s.queues[r.priority] + [NewTask(r, s.counts.submitted)]],
       counts := s.counts.(submitted := s.counts.submitted + 1))
  }

  /** What an operation does before it runs a pass, if it runs one. */
  function Prepare(maxQueueSize: int, s: Sched, op: Op): (t: Sched)
    requires |s.queues| == PRIORITIES
    ensures |t.queues| == PRIORITIES
  {
    match op
    case Submit(r) => if Accepts(s, maxQueueSize, r) then Enqueue(s, r) else s
    case End(id, state) => if IsEnd(state) && s.active.Has(id) then RetireStep(s, id, state) else s
    case Tick => s
    case _ => Apply(maxQueueSize, s, op)
  }

  predicate Passes(maxQueueSize: int, s: Sched, op: Op) {
    match op
    case Submit(r) => Accepts(s, maxQueueSize, r)
    case End(id, state) => IsEnd(state) && s.active.Has(id)
    case Tick => true
    case _ => false
  }

  lemma ApplyIsPrepareThenPass(maxQueueSize: int, s: Sched, op: Op)
    requires |s.queues| == PRIORITIES
    ensures Apply(maxQueueSize, s, op)
      == if Passes(maxQueueSize, s, op) then PassStep(Prepare(maxQueueSize, s, op)) else Prepare(maxQueueSize, s, op)
  {
  }

  lemma CancelPlaces(s: Sched, id: Id, n: nat)
    ensures Places(CancelStep(s, id).0, n) == Places(s, n)
  {
    var p := QueueWith(s.queues, 0, id);
    if !s.active.Has(id) && p < |s.queues| {
      var i, x := IndexOf(s.queues[p], id), BySerial(n);
      var t := s.queues[p][i].(state := CANCELLED);
      QueuedUpdate(s.queues, p, RemoveAt(s.queues[p], i), x);
      CountRemoveAt(s.queues[p], i, x);
      CountConcat(s.ended, [t], x);
      CountSingle(t, x);
    }
  }

  lemma RetirePlaces(s: Sched, id: Id, state: TaskState, n: nat)
    requires s.active.Has(id)
    ensures Places(RetireStep(s, id, state), n) == Places(s, n)
  {
    var t := s.active.vals[id].(state := state);
    RunningDelete(s.active, id, BySerial(n));
    CountConcat(s.ended, [t], BySerial(n));
    CountSingle(t, BySerial(n));
  }

  lemma ReassignOnePlaces(s: Sched, id: Id, agent: Id, n: nat)
    ensures Places(ReassignOne(s, id, agent), n) == Places(s, n)
  {
    if ReassignOne(s, id, agent) != s {
      var t := s.active.vals[id];
      RequeueMoves(s.queues, t.(state := PENDING, assignedAgent := None), BySerial(n));
      RunningDelete(s.active, id, BySerial(n));
    }
  }

  lemma {:induction false} ReassignPlaces(s: Sched, ids: seq<Id>, agent: Id, n: nat)
    ensures Places(Reassign(s, ids, agent), n) == Places(s, n)
  {
    if ids != [] {
      ReassignPlaces(s, ids[..|ids| - 1], agent, n);
      ReassignOnePlaces(Reassign(s, ids[..|ids| - 1], agent), ids[|ids| - 1], agent, n);
    }
  }

  /** A submitted task gets the next serial and one place; no other place changes. */
  lemma PreparePlaces(maxQueueSize: int, s: Sched, op: Op, n: nat)
    requires |s.queues| == PRIORITIES
    ensures var t := Prepare(maxQueueSize, s, op);
      && Places(t, n) == Places(s, n) + (if s.counts.submitted <= n < t.counts.submitted then 1 else 0)
      && s.counts.submitted <= t.counts.submitted <= s.counts.submitted + 1
  {
    match op
    case Submit(r) =>
      if Accepts(s, maxQueueSize, r) {
        EnqueueMoves(s.queues, NewTask(r, s.counts.submitted), BySerial(n));
      }
    case Cancel(id) => CancelPlaces(s, id, n);
    case Start(id, agent) =>
      if s.active.Has(id) {
        RunningChanged(s.active, id, s.active.vals[id].(state := RUNNING, assignedAgent := Some(agent)), BySerial(n));
      }
    case End(id, state) =>
      if IsEnd(state) && s.active.Has(id) {
        RetirePlaces(s, id, state, n);
      }
    case Unregister(id) =>
      ReassignPlaces(s, s.active.keys, id, n);
      ReassignKeepsCounts(s, s.active.keys, id);
    case _ =>
  }

  lemma {:induction false} ReassignKeepsCounts(s: Sched, ids: seq<Id>, agent: Id)
    ensures Reassign(s, ids, agent).counts == s.counts && Reassign(s, ids, agent).agents == s.agents
  {
    if ids != [] {
      ReassignKeepsCounts(s, ids[..|ids| - 1], agent);
    }
  }

  lemma ApplyKeepsAgents(maxQueueSize: int, s: Sched, op: Op)
    requires |s.queues| == PRIORITIES && AgentsOk(s.agents)
    ensures AgentsOk(Prepare(maxQueueSize, s, op).agents) && AgentsOk(Apply(maxQueueSize, s, op).agents)
  {
    if op.Unregister? {
      ReassignKeepsCounts(s, s.active.keys, op.id);
    }
  }

  // ---------- Whole runs ----------

  /** Each pass of the run has fresh ids. */
  ghost predicate PassesFresh(maxQueueSize: int, ops: seq<Op>) {
    ops == [] || (
      var s, op := After(maxQueueSize, ops[..|ops| - 1]), ops[|ops| - 1];
      PassesFresh(maxQueueSize, ops[..|ops| - 1])
        && (Passes(maxQueueSize, s, op) ==> FreshPass(Prepare(maxQueueSize, s, op))))
  }

  function Expected(s: Sched, n: nat): nat { if n < s.counts.submitted then 1 else 0 }

  ghost predicate NothingDoubled(s: Sched) { AgentsOk(s.agents) && forall n: nat :: Places(s, n) <= Expected(s, n) }

  lemma ApplyPlaces(maxQueueSize: int, s: Sched, op: Op, n: nat)
    requires |s.queues| == PRIORITIES && AgentsOk(s.agents)
    ensures var t := Apply(maxQueueSize, s, op);
      && s.counts.submitted <= t.counts.submitted
      && Places(t, n) <= Places(s, n) + Expected(t, n) - Expected(s, n)
      && ((Passes(maxQueueSize, s, op) ==> FreshPass(Prepare(maxQueueSize, s, op))) ==>
           Places(t, n) == Places(s, n) + Expected(t, n) - Expected(s, n))
  {
    ApplyIsPrepareThenPass(maxQueueSize, s, op);
    ApplyKeepsAgents(maxQueueSize, s, op);
    PreparePlaces(maxQueueSize, s, op, n);
    PassPlaces(Prepare(maxQueueSize, s, op), n);
  }

  lemma {:induction false} NothingIsDoubled(maxQueueSize: int, ops: seq<Op>)
    ensures NothingDoubled(After(maxQueueSize, ops))
  {
    if ops == [] {
      forall n: nat ensures Places(INITIAL, n) == 0 {
        NothingQueued(INITIAL.queues, BySerial(n));
      }
    } else {
      var s, op := After(maxQueueSize, ops[..|ops| - 1]), ops[|ops| - 1];
      NothingIsDoubled(maxQueueSize, ops[..|ops| - 1]);
      ApplyKeepsAgents(maxQueueSize, s, op);
      forall n: nat ensures Places(Apply(maxQueueSize, s, op), n) <= Expected(Apply(maxQueueSize, s, op), n) {
        ApplyPlaces(maxQueueSize, s, op, n);
      }
    }
  }

  lemma {:induction false} FreshKeepsPlaces(maxQueueSize: int, ops: seq<Op>, n: nat)
    requires PassesFresh(maxQueueSize, ops)
    ensures Places(After(maxQueueSize, ops), n) == Expected(After(maxQueueSize, ops), n)
  {
    if ops == [] {
      NothingQueued(INITIAL.queues, BySerial(n));
    } else {
      var s, op := After(maxQueueSize, ops[..|ops| - 1]), ops[|ops| - 1];
      FreshKeepsPlaces(maxQueueSize, ops[..|ops| - 1], n);
      NothingIsDoubled(maxQueueSize, ops[..|ops| - 1]);
      ApplyPlaces(maxQueueSize, s, op, n);
    }
  }

  lemma {:induction false} CollisionLosesForGood(maxQueueSize: int, ops: seq<Op>) returns (n: nat)
    requires !PassesFresh(maxQueueSize, ops)
    ensures n < After(maxQueueSize, ops).counts.submitted && Places(After(maxQueueSize, ops), n) == 0
  {
    var s, op := After(maxQueueSize, ops[..|ops| - 1]), ops[|ops| - 1];
    NothingIsDoubled(maxQueueSize, ops[..|ops| - 1]);
    if PassesFresh(maxQueueSize, ops[..|ops| - 1]) {
      ApplyIsPrepareThenPass(maxQueueSize, s, op);
      ApplyKeepsAgents(maxQueueSize, s, op);
      n := PassLoses(Prepare(maxQueueSize, s, op));
      PreparePlaces(maxQueueSize, s, op, n);
    } else {
      n := CollisionLosesForGood(maxQueueSize, ops[..|ops| - 1]);
      ApplyPlaces(maxQueueSize, s, op, n);
    }
  }

  lemma PlacesMeans(s: Sched, n: nat)
    requires Places(s, n) <= Expected(s, n)
    ensures InOnePlace(s, n) <==> Places(s, n) == Expected(s, n)
  {
    QueuedMeans(s, n);
    AmongMeans(s.active.keys, s.active.vals, n);
    assert InActive(s, n) <==> Running(s.active, BySerial(n)) > 0;
    EndedMeans(s, n);
  }

  /** After any run, each submitted task is in exactly one place if and only if every pass had fresh ids. */
  lemma OnePlaceIffPassesFresh(maxQueueSize: int, ops: seq<Op>)
    ensures (forall n: nat :: InOnePlace(After(maxQueueSize, ops), n)) <==> PassesFresh(maxQueueSize, ops)
  {
    var s := After(maxQueueSize, ops);
    NothingIsDoubled(maxQueueSize, ops);
    if PassesFresh(maxQueueSize, ops) {
      forall n: nat ensures InOnePlace(s, n) {
        FreshKeepsPlaces(maxQueueSize, ops, n);
        PlacesMeans(s, n);
      }
    } else {
      var n := CollisionLosesForGood(maxQueueSize, ops);
      PlacesMeans(s, n);
    }
  }

  /** It is enough that no id is submitted while its task waits or is active. */
  lemma FreshRunPassesFresh(maxQueueSize: int, ops: seq<Op>)
    requires FreshRun(maxQueueSize, ops)
    ensures PassesFresh(maxQueueSize, ops)
  {
    forall n: nat ensures InOnePlace(After(maxQueueSize, ops), n) {
      OnePlaceEach(maxQueueSize, ops, After(maxQueueSize, ops), n);
    }
    OnePlaceIffPassesFresh(maxQueueSize, ops);
  }

  // ---------- An id submitted twice ----------

  const WORKER: Agent := Agent("w", {}, 1, 0, 0)

  /** The plainest request there is for an id. */
  function Plain(id: Id): Request { Request(id, 0, FIFO, "", "") }

  const TWICE: Request := Plain("t")

  lemma WorkerTakes(t: Task)
    requires t.requiredCapability == "" && t.preferredAgent == "" && t.strategy == FIFO
    ensures WorkQueue([t], [WORKER], 0) == Pass([], [Assignment(t, WORKER)], [], 0)
  {
    assert [WORKER][..0] == [] && Candidates(t, []) == [];
    assert Candidates(t, [WORKER]) == [WORKER];
    assert Select(t, [WORKER], 0) == (Some(WORKER), 0);
    assert [t][1..] == [] && DropAgent([WORKER], WORKER.id) == [];
    assert WorkQueue([], [], 0) == Pass([], [], [], 0);
    assert [Assignment(t, WORKER)] + [] == [Assignment(t, WORKER)];
  }

  lemma FlattenOne(taken: seq<Assignment>)
    ensures Flatten([] + [taken]) == taken
  {
    assert ([] + [taken])[..0] == [];
  }

  lemma FlattenSnocNone(taken: seq<seq<Assignment>>)
    ensures Flatten(taken + [[]]) == Flatten(taken)
  {
    assert (taken + [[]])[..|taken|] == taken;
  }

  /** A pass over one task of the first priority and one worker: the task is taken. */
  lemma {:induction false} OneTaken(queues: seq<seq<Task>>, t: Task, n: nat)
    requires 0 < n <= |queues| && queues[0] == [t] && forall p :: 0 < p < |queues| ==> queues[p] == []
    requires t.requiredCapability == "" && t.preferredAgent == "" && t.strategy == FIFO
    ensures var r := WorkQueues(queues, n, [WORKER], 0);
      r.queues == queues[0 := []] && r.rr == 0 && r.available == [] && Flatten(r.taken) == [Assignment(t, WORKER)]
  {
    if n == 1 {
      assert WorkQueues(queues, 0, [WORKER], 0) == Round(queues, [], [WORKER], 0);
      WorkerTakes(t);
      FlattenOne([Assignment(t, WORKER)]);
    } else {
      OneTaken(queues, t, n - 1);
      var r := WorkQueues(queues, n - 1, [WORKER], 0);
      assert WorkQueue(r.queues[n - 1], r.available, r.rr) == Pass([], [], [], 0);
      assert r.queues[n - 1 := []] == r.queues;
      FlattenSnocNone(r.taken);
    }
  }

  lemma OnlyWorker(agents: JsMap<Id, Agent>)
    requires agents == OrderedMap(["w"], map["w" := WORKER])
    ensures Available(agents) == [WORKER]
  {
    var list := ValuesOf(agents);
    assert list == [WORKER];
    assert FreeOf(list[..0]) == [];
  }

  /** Submitting to an idle scheduler with one worker: the task becomes active under its id. */
  lemma SubmitToIdle(s: Sched, maxQueueSize: int, id: Id)
    requires id != "" && s.isRunning && s.rr == 0 && s.agents == OrderedMap(["w"], map["w" := WORKER])
    requires s.queues == INITIAL.queues
    requires maxQueueSize >= 1
    ensures var t := NewTask(Plain(id), s.counts.submitted).(state := SCHEDULED, assignedAgent := Some("w"));
      var s' := Apply(maxQueueSize, s, Submit(Plain(id)));
      s'.queues == s.queues && s'.isRunning && s'.rr == 0 && s'.agents == s.agents && s'.active == s.active.Set(id, t)
      && s'.counts.submitted == s.counts.submitted + 1 && s'.ended == s.ended
  {
    NothingQueued(s.queues, BySerial(0));
    var task := NewTask(Plain(id), s.counts.submitted);
    var queues := s.queues[0 := s.queues[0] + [task]];
    assert queues[0] == [task];
    OnlyWorker(s.agents);
    OneTaken(queues, task, PRIORITIES);
    assert queues[0 := []] == s.queues;
    ScheduleOne(s.active, Assignment(task, WORKER));
  }

  lemma ScheduleOne(active: Active, a: Assignment)
    ensures ScheduleAll(active, [a]) == active.Set(a.task.id, Placed(a))
  {
    assert [a][..0] == [] && ScheduleAll(active, []) == active;
  }

  lemma RegisterAndRun(maxQueueSize: int)
    ensures After(maxQueueSize, [Register("w", {}, 1), Run])
      == INITIAL.(agents := OrderedMap(["w"], map["w" := WORKER]), isRunning := true)
  {
    var ops := [Register("w", {}, 1), Run];
    assert ops[..1] == [Register("w", {}, 1)] && ops[..1][..0] == [];
    assert After(maxQueueSize, []) == INITIAL;
    var s := After(maxQueueSize, ops[..1]);
    assert s == RegisterStep(INITIAL, "w", {}, 1);
    assert s.agents.keys == ["w"] && s.agents.vals == map["w" := WORKER];
  }

  lemma AfterSnoc(maxQueueSize: int, ops: seq<Op>, op: Op)
    ensures After(maxQueueSize, ops + [op]) == Apply(maxQueueSize, After(maxQueueSize, ops), op)
  {
    assert (ops + [op])[..|ops|] == ops;
  }

  const SUBMITTED_TWICE: seq<Op> := [Register("w", {}, 1), Run, Submit(TWICE), Submit(TWICE)]

  /**
   A worker is registered, the scheduler is started, and an id is submitted twice: nothing waits, one task
   is active, none has ended, and two were submitted. The first is lost.
   */
  lemma SubmittedTwiceIsLost(maxQueueSize: int)
    requires maxQueueSize >= 1
    ensures var s := After(maxQueueSize, SUBMITTED_TWICE);
      s.counts.submitted == 2 && Total(s.queues) == 0 && s.active.Size() == 1 && s.ended == []
        && !PassesFresh(maxQueueSize, SUBMITTED_TWICE)
  {
    var ops := [Register("w", {}, 1), Run];
    RegisterAndRun(maxQueueSize);
    SubmitToIdle(After(maxQueueSize, ops), maxQueueSize, "t");
    AfterSnoc(maxQueueSize, ops, Submit(TWICE));
    SubmitToIdle(After(maxQueueSize, ops + [Submit(TWICE)]), maxQueueSize, "t");
    AfterSnoc(maxQueueSize, ops + [Submit(TWICE)], Submit(TWICE));
    assert SUBMITTED_TWICE == ops + [Submit(TWICE)] + [Submit(TWICE)];
    SecondIsActive(After(maxQueueSize, SUBMITTED_TWICE));
    OnePlaceIffPassesFresh(maxQueueSize, SUBMITTED_TWICE);
  }

  lemma SecondIsActive(s: Sched)
    requires s.active.keys == ["t"] && s.active.vals["t"].serial == 1 && s.queues == INITIAL.queues && s.ended == []
    requires s.counts.submitted == 2
    ensures !InOnePlace(s, 0) && Total(s.queues) == 0
  {
    NothingQueued(s.queues, BySerial(0));
  }
}
