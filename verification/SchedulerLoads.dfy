/**
 src/agents/scheduler.js, the load of an agent: exactly when it is the number of its running tasks, over every
 run in which no pass pushes a task out, and exactly when it stays within the agent's maximum.
 */
module SchedulerLoads {
  import opened JsCollections
  import opened Dispatch
  import opened Scheduler
  import opened SchedulerRuns
  import opened SchedulerLoss
  import opened TaskCounts
  import Laws = SchedulerLaws

  // ---------- Running tasks ----------

  predicate Runs(t: Task, agent: Id) { t.state == RUNNING && t.assignedAgent == Some(agent) }

  /** The tasks that an agent is running. */
  function RunningOf(active: Active, agent: Id): set<Id> { set id | id in active.vals && Runs(active.vals[id], agent) }

  ghost predicate LoadIs(agents: JsMap<Id, Agent>, active: Active, agent: Id) {
    agent in agents.vals ==> agents.vals[agent].currentLoad == |RunningOf(active, agent)|
  }

  /** The load of every registered agent is the number of its running tasks. */
  ghost predicate LoadsExact(s: Sched) { forall agent :: LoadIs(s.agents, s.active, agent) }

  lemma RunningSetTo(active: Active, id: Id, t: Task, agent: Id)
    ensures RunningOf(active.Set(id, t), agent)
      == if Runs(t, agent) then RunningOf(active, agent) + {id} else RunningOf(active, agent) - {id}
  {
  }

  lemma RunningWithout(active: Active, id: Id, agent: Id)
    ensures RunningOf(active.Delete(id), agent) == RunningOf(active, agent) - {id}
  {
  }

  /** Scheduling starts nothing, and pushes nothing out when the ids are fresh. */
  lemma {:induction false} ScheduledNotRunning(active: Active, taken: seq<Assignment>, agent: Id)
    requires forall i :: 0 <= i < |taken| ==> taken[i].task.id !in active.vals
    ensures RunningOf(ScheduleAll(active, taken), agent) == RunningOf(active, agent)
  {
    if taken != [] {
      var init, last := taken[..|taken| - 1], taken[|taken| - 1];
      ScheduledNotRunning(active, init, agent);
      RunningSetTo(ScheduleAll(active, init), last.task.id, Placed(last), agent);
      assert last.task.id !in RunningOf(active, agent);
    }
  }

  lemma PassKeepsRunning(s: Sched)
    requires |s.queues| == PRIORITIES && FreshPass(s)
    ensures PassStep(s).agents == s.agents && (LoadsExact(PassStep(s)) <==> LoadsExact(s))
  {
    if s.isRunning {
      forall agent ensures RunningOf(PassStep(s).active, agent) == RunningOf(s.active, agent) {
        ScheduledNotRunning(s.active, Flatten(TakenBy(s)), agent);
      }
      SameLoads(s, PassStep(s));
    }
  }

  lemma SameLoads(s: Sched, s': Sched)
    requires s'.agents == s.agents && forall agent :: RunningOf(s'.active, agent) == RunningOf(s.active, agent)
    ensures LoadsExact(s') <==> LoadsExact(s)
  {
    forall agent ensures LoadIs(s'.agents, s'.active, agent) <==> LoadIs(s.agents, s.active, agent) {
      assert RunningOf(s'.active, agent) == RunningOf(s.active, agent);
    }
  }

  // ---------- Which marks keep loads exact ----------

  /** The agent of an active task is registered. */
  predicate Owned(s: Sched, t: Task) { t.assignedAgent.Some? && s.agents.Has(t.assignedAgent.value) }

  /**
   What a caller must respect: a task is not started a second time; it does not end without being started while
   its agent has anything running; its agent is not the one with the empty id; and no agent registers anew while
   it runs something.
   */
  predicate Honest(s: Sched, op: Op) {
    match op
    case Start(id, _) => !(s.active.Has(id) && s.active.vals[id].state == RUNNING && Owned(s, s.active.vals[id]))
    case End(id, state) =>
      IsEnd(state) && s.active.Has(id) && Owned(s, s.active.vals[id]) ==>
        var t := s.active.vals[id];
        if t.state == RUNNING then t.assignedAgent != Some("")
        else t.assignedAgent == Some("") || s.agents.vals[t.assignedAgent.value].currentLoad == 0
    case Register(id, _, _) => RunningOf(s.active, id) == {}
    case _ => true
  }

  lemma StartLoads(s: Sched, id: Id, agent: Id)
    requires LoadsExact(s)
    ensures LoadsExact(StartStep(s, id, agent)) <==> Honest(s, Start(id, agent))
  {
    if s.active.Has(id) {
      var t := s.active.vals[id].(state := RUNNING, assignedAgent := Some(agent));
      var s' := StartStep(s, id, agent);
      forall a ensures RunningOf(s'.active, a) ==
        if a == agent then RunningOf(s.active, a) + {id} else RunningOf(s.active, a) - {id}
      {
        RunningSetTo(s.active, id, t, a);
      }
      var before := s.active.vals[id];
      forall a | !(before.state == RUNNING && before.assignedAgent == Some(a))
        ensures LoadIs(s'.agents, s'.active, a)
      {
        assert LoadIs(s.agents, s.active, a);
        StartedLoad(s, s', id, agent, a);
      }
      if before.state == RUNNING && Owned(s, before) {
        StartedTwice(s, s', id, agent, before.assignedAgent.value);
      }
    }
  }

  lemma StartedLoad(s: Sched, s': Sched, id: Id, agent: Id, a: Id)
    requires s.active.Has(id) && !Runs(s.active.vals[id], a) && LoadIs(s.agents, s.active, a)
    requires s'.agents == AddLoad(s.agents, agent)
    requires RunningOf(s'.active, a) ==
      if a == agent then RunningOf(s.active, a) + {id} else RunningOf(s.active, a) - {id}
    ensures LoadIs(s'.agents, s'.active, a)
  {
    assert id !in RunningOf(s.active, a);
  }

  lemma StartedTwice(s: Sched, s': Sched, id: Id, agent: Id, a: Id)
    requires s.active.Has(id) && Runs(s.active.vals[id], a) && LoadIs(s.agents, s.active, a) && s.agents.Has(a)
    requires s'.agents == AddLoad(s.agents, agent)
    requires RunningOf(s'.active, a) ==
      if a == agent then RunningOf(s.active, a) + {id} else RunningOf(s.active, a) - {id}
    ensures !LoadIs(s'.agents, s'.active, a)
  {
    assert id in RunningOf(s.active, a);
    if a == agent {
      assert RunningOf(s.active, a) + {id} == RunningOf(s.active, a);
    }
  }

  lemma RetireLoads(s: Sched, id: Id, state: TaskState)
    requires LoadsExact(s) && s.active.Has(id) && IsEnd(state) && s.active.vals[id].state in {SCHEDULED, RUNNING}
    ensures LoadsExact(RetireStep(s, id, state)) <==> Honest(s, End(id, state))
  {
    var s', t := RetireStep(s, id, state), s.active.vals[id];
    forall a ensures RunningOf(s'.active, a) == RunningOf(s.active, a) - {id} {
      RunningWithout(s.active, id, a);
    }
    forall a | t.assignedAgent != Some(a) ensures LoadIs(s'.agents, s'.active, a) {
      RetiredOther(s, s', id, a, state == COMPLETED);
    }
    if Owned(s, t) {
      RetiredLoad(s, s', id, t.assignedAgent.value, state == COMPLETED);
    }
  }

  lemma RetiredOther(s: Sched, s': Sched, id: Id, a: Id, done: bool)
    requires s.active.Has(id) && s.active.vals[id].assignedAgent != Some(a) && LoadIs(s.agents, s.active, a)
    requires RunningOf(s'.active, a) == RunningOf(s.active, a) - {id}
    requires s'.agents == DropLoad(s.agents, s.active.vals[id].assignedAgent, done)
    ensures LoadIs(s'.agents, s'.active, a)
  {
    assert id !in RunningOf(s.active, a);
  }

  lemma RetiredLoad(s: Sched, s': Sched, id: Id, a: Id, done: bool)
    requires s.active.Has(id) && s.active.vals[id].assignedAgent == Some(a) && s.agents.Has(a)
    requires LoadIs(s.agents, s.active, a) && RunningOf(s'.active, a) == RunningOf(s.active, a) - {id}
    requires s'.agents == DropLoad(s.agents, Some(a), done)
    ensures LoadIs(s'.agents, s'.active, a) <==>
      if s.active.vals[id].state == RUNNING then a != "" else a == "" || s.agents.vals[a].currentLoad == 0
  {
    if s.active.vals[id].state == RUNNING {
      assert id in RunningOf(s.active, a);
    } else {
      assert id !in RunningOf(s.active, a);
    }
  }

  lemma RegisterLoads(s: Sched, id: Id, capabilities: set<string>, maxConcurrent: int)
    requires LoadsExact(s)
    ensures LoadsExact(RegisterStep(s, id, capabilities, maxConcurrent)) <==>
      Honest(s, Register(id, capabilities, maxConcurrent))
  {
    var s' := RegisterStep(s, id, capabilities, maxConcurrent);
    forall a | a != id ensures LoadIs(s'.agents, s'.active, a) {
      assert LoadIs(s.agents, s.active, a);
    }
    assert LoadIs(s'.agents, s'.active, id) <==> |RunningOf(s.active, id)| == 0;
  }

  lemma ReassignOneLoads(s: Sched, id: Id, agent: Id)
    ensures ReassignOne(s, id, agent).agents == s.agents
    ensures forall a :: RunningOf(ReassignOne(s, id, agent).active, a) == RunningOf(s.active, a)
  {
    forall a ensures RunningOf(ReassignOne(s, id, agent).active, a) == RunningOf(s.active, a) {
      RunningWithout(s.active, id, a);
    }
  }

  lemma {:induction false} ReassignLoads(s: Sched, ids: seq<Id>, agent: Id)
    ensures Reassign(s, ids, agent).agents == s.agents
    ensures forall a :: RunningOf(Reassign(s, ids, agent).active, a) == RunningOf(s.active, a)
  {
    if ids != [] {
      ReassignLoads(s, ids[..|ids| - 1], agent);
      ReassignOneLoads(Reassign(s, ids[..|ids| - 1], agent), ids[|ids| - 1], agent);
    }
  }

  lemma UnregisterLoads(s: Sched, agent: Id)
    requires LoadsExact(s)
    ensures LoadsExact(UnregisterStep(s, agent).0)
  {
    ReassignLoads(s, s.active.keys, agent);
    var s' := UnregisterStep(s, agent).0;
    forall a ensures LoadIs(s'.agents, s'.active, a) {
      assert LoadIs(s.agents, s.active, a);
      assert RunningOf(s'.active, a) == RunningOf(s.active, a);
    }
  }

  // ---------- Whole runs ----------

  /** What is active is scheduled or running. */
  ghost predicate Underway(active: Active) {
    forall id :: id in active.vals ==> active.vals[id].state in {SCHEDULED, RUNNING}
  }

  /** From a state with exact loads, they stay exact exactly when the caller respects what it must. */
  lemma StepKeepsLoadsIff(maxQueueSize: int, s: Sched, op: Op)
    requires |s.queues| == PRIORITIES && LoadsExact(s) && Underway(s.active)
    requires Passes(maxQueueSize, s, op) ==> FreshPass(Prepare(maxQueueSize, s, op))
    ensures LoadsExact(Apply(maxQueueSize, s, op)) <==> Honest(s, op)
  {
    match op
    case Submit(r) =>
      if Accepts(s, maxQueueSize, r) {
        SameLoads(s, Enqueue(s, r));
        PassKeepsRunning(Enqueue(s, r));
      }
    case Cancel(id) => SameLoads(s, CancelStep(s, id).0);
    case Start(id, agent) => StartLoads(s, id, agent);
    case End(id, state) =>
      if IsEnd(state) && s.active.Has(id) {
        RetireLoads(s, id, state);
        PassKeepsRunning(RetireStep(s, id, state));
      }
    case Register(id, caps, max) => RegisterLoads(s, id, caps, max);
    case Unregister(id) => UnregisterLoads(s, id);
    case Tick => PassKeepsRunning(s);
    case Run => SameLoads(s, s.(isRunning := true));
    case Stop => SameLoads(s, s.(isRunning := false));
    case ClearHistory => SameLoads(s, s.(history := []));
  }

  /** Every call of the run respects what it must. */
  ghost predicate HonestRun(maxQueueSize: int, ops: seq<Op>) {
    ops == [] || (HonestRun(maxQueueSize, ops[..|ops| - 1])
      && Honest(After(maxQueueSize, ops[..|ops| - 1]), ops[|ops| - 1]))
  }

  /** Loads are exact all along a run. */
  ghost predicate AlwaysExact(maxQueueSize: int, ops: seq<Op>) {
    LoadsExact(After(maxQueueSize, ops)) && (ops == [] || AlwaysExact(maxQueueSize, ops[..|ops| - 1]))
  }

  lemma ActiveIsUnderway(maxQueueSize: int, ops: seq<Op>)
    ensures Underway(After(maxQueueSize, ops).active)
  {
    var s, requests := After(maxQueueSize, ops), Laws.Requests(maxQueueSize, ops);
    Laws.TasksCarryRequests(maxQueueSize, ops);
    forall id | id in s.active.vals ensures s.active.vals[id].state in {SCHEDULED, RUNNING} {
      assert Laws.Underway(s.active.vals[id], id, requests);
    }
  }

  /**
   In every run in which no pass pushes a task out, the load of each agent is always the number of its running
   tasks exactly when no task is started twice, none ends unstarted while its agent is loaded, none runs on the
   agent with the empty id, and no agent registers anew while it runs something.
   */
  lemma {:induction false} LoadsExactIff(maxQueueSize: int, ops: seq<Op>)
    requires PassesFresh(maxQueueSize, ops)
    ensures AlwaysExact(maxQueueSize, ops) <==> HonestRun(maxQueueSize, ops)
  {
    if ops != [] {
      var init, op := ops[..|ops| - 1], ops[|ops| - 1];
      LoadsExactIff(maxQueueSize, init);
      ActiveIsUnderway(maxQueueSize, init);
      if AlwaysExact(maxQueueSize, init) {
        StepKeepsLoadsIff(maxQueueSize, After(maxQueueSize, init), op);
      }
    }
  }

  // ---------- The maximum ----------

  ghost predicate WithinMax(s: Sched) {
    forall a :: a in s.agents.vals ==> s.agents.vals[a].currentLoad <= s.agents.vals[a].maxConcurrent
  }

  /** The agent at which an active task is started has room, and no agent registers with a negative maximum. */
  predicate HasRoom(s: Sched, op: Op) {
    match op
    case Start(id, agent) =>
      s.active.Has(id) && s.agents.Has(agent) ==>
        s.agents.vals[agent].currentLoad < s.agents.vals[agent].maxConcurrent
    case Register(_, _, max) => max >= 0
    case _ => true
  }

  lemma PassKeepsAgents(s: Sched)
    requires |s.queues| == PRIORITIES
    ensures PassStep(s).agents == s.agents
  {
  }

  lemma RetireKeepsMax(s: Sched, id: Id, state: TaskState)
    requires WithinMax(s) && s.active.Has(id)
    ensures WithinMax(RetireStep(s, id, state))
  {
  }

  lemma StepKeepsMaxIff(maxQueueSize: int, s: Sched, op: Op)
    requires |s.queues| == PRIORITIES && WithinMax(s)
    ensures WithinMax(Apply(maxQueueSize, s, op)) <==> HasRoom(s, op)
  {
    match op
    case Submit(r) =>
      if Accepts(s, maxQueueSize, r) {
        PassKeepsAgents(Enqueue(s, r));
      }
    case Cancel(id) =>
    case Start(id, agent) => StartMaxIff(s, id, agent);
    case End(id, state) =>
      if IsEnd(state) && s.active.Has(id) {
        RetireKeepsMax(s, id, state);
        PassKeepsAgents(RetireStep(s, id, state));
      }
    case Register(id, caps, max) => RegisterMaxIff(s, id, caps, max);
    case Unregister(id) => ReassignLoads(s, s.active.keys, id);
    case Tick => PassKeepsAgents(s);
    case Run =>
    case Stop =>
    case ClearHistory =>
  }

  lemma StartMaxIff(s: Sched, id: Id, agent: Id)
    requires WithinMax(s)
    ensures WithinMax(StartStep(s, id, agent)) <==> HasRoom(s, Start(id, agent))
  {
    if s.active.Has(id) && s.agents.Has(agent) {
      var agents := AddLoad(s.agents, agent);
      assert agent in agents.vals;
    }
  }

  lemma RegisterMaxIff(s: Sched, id: Id, capabilities: set<string>, max: int)
    requires WithinMax(s)
    ensures WithinMax(RegisterStep(s, id, capabilities, max)) <==> max >= 0
  {
    var agents := RegisterStep(s, id, capabilities, max).agents;
    assert id in agents.vals;
  }

  ghost predicate AlwaysWithinMax(maxQueueSize: int, ops: seq<Op>) {
    WithinMax(After(maxQueueSize, ops)) && (ops == [] || AlwaysWithinMax(maxQueueSize, ops[..|ops| - 1]))
  }

  ghost predicate AlwaysHasRoom(maxQueueSize: int, ops: seq<Op>) {
    ops == [] || (AlwaysHasRoom(maxQueueSize, ops[..|ops| - 1])
      && HasRoom(After(maxQueueSize, ops[..|ops| - 1]), ops[|ops| - 1]))
  }

  /** No agent ever runs more than its maximum exactly when every start finds room. The scheduler does not see to it. */
  lemma {:induction false} WithinMaxIff(maxQueueSize: int, ops: seq<Op>)
    ensures AlwaysWithinMax(maxQueueSize, ops) <==> AlwaysHasRoom(maxQueueSize, ops)
  {
    if ops != [] {
      var init, op := ops[..|ops| - 1], ops[|ops| - 1];
      WithinMaxIff(maxQueueSize, init);
      if AlwaysWithinMax(maxQueueSize, init) {
        StepKeepsMaxIff(maxQueueSize, After(maxQueueSize, init), op);
      }
    }
  }

  const TWO_FOR_ONE: seq<Op> := [Register("w", {}, 1), Run, Submit(Plain("t")), Submit(Plain("u"))]

  /**
   A scheduled task does not count until it is started: an agent for one task at a time is given two, one after the
   other, and once both are started, as they were scheduled, its load is two.
   */
  lemma TwoForOne(maxQueueSize: int)
    requires maxQueueSize >= 1
    ensures var ops := TWO_FOR_ONE + [Start("t", "w")] + [Start("u", "w")];
      var before, after := After(maxQueueSize, TWO_FOR_ONE), After(maxQueueSize, ops);
      && before.active.Has("t") && before.active.vals["t"].assignedAgent == Some("w")
      && before.active.Has("u") && before.active.vals["u"].assignedAgent == Some("w")
      && after.agents.Has("w") && after.agents.vals["w"].currentLoad == 2 > after.agents.vals["w"].maxConcurrent
  {
    TwoScheduled(maxQueueSize);
    AfterSnoc(maxQueueSize, TWO_FOR_ONE, Start("t", "w"));
    AfterSnoc(maxQueueSize, TWO_FOR_ONE + [Start("t", "w")], Start("u", "w"));
    BothStarted(After(maxQueueSize, TWO_FOR_ONE));
  }

  ghost predicate IsScheduled(active: Active, id: Id, agent: Id) {
    active.Has(id) && active.vals[id].assignedAgent == Some(agent)
  }

  lemma TwoScheduled(maxQueueSize: int)
    requires maxQueueSize >= 1
    ensures var s := After(maxQueueSize, TWO_FOR_ONE);
      s.agents == OrderedMap(["w"], map["w" := WORKER]) && IsScheduled(s.active, "t", "w")
        && IsScheduled(s.active, "u", "w")
  {
    var ops := [Register("w", {}, 1), Run];
    RegisterAndRun(maxQueueSize);
    SubmitToIdle(After(maxQueueSize, ops), maxQueueSize, "t");
    AfterSnoc(maxQueueSize, ops, Submit(Plain("t")));
    SubmitToIdle(After(maxQueueSize, ops + [Submit(Plain("t"))]), maxQueueSize, "u");
    AfterSnoc(maxQueueSize, ops + [Submit(Plain("t"))], Submit(Plain("u")));
    assert TWO_FOR_ONE == ops + [Submit(Plain("t"))] + [Submit(Plain("u"))];
  }

  lemma BothStarted(s: Sched)
    requires s.active.Has("t") && s.active.Has("u") && s.agents == OrderedMap(["w"], map["w" := WORKER])
    ensures var agents := StartStep(StartStep(s, "t", "w"), "u", "w").agents;
      agents.Has("w") && agents.vals["w"] == WORKER.(currentLoad := 2)
  {
  }
}
