/**
 src/agents/scheduler.js, the class: its operations as they change the queues and Maps in place, each
 equal to the step that Scheduler specifies.
 */
module AgentSchedulers {
  import opened JsCollections
  import opened Dispatch
  import opened Scheduler

  class AgentScheduler {
    const maxQueueSize: int
    var queues: seq<seq<Task>>
    var agents: JsMap<Id, Agent>
    var activeTasks: JsMap<Id, Task>
    var completedTasks: seq<Task>
    var roundRobinIndex: nat
    var metrics: Counts
    var isRunning: bool
    ghost var ended: seq<Task>
    ghost var log: seq<Task>
    ghost var requeued: set<nat>

    ghost function State(): Sched
      reads this
    {
      Sched(queues, agents, activeTasks, completedTasks, roundRobinIndex, metrics, isRunning, ended, log, requeued)
    }

    ghost predicate Valid()
      reads this
    {
      |queues| == PRIORITIES
    }

    constructor (maxQueueSize: int)
      ensures Valid() && State() == INITIAL && this.maxQueueSize == if maxQueueSize == 0 then 1000 else maxQueueSize
    {
      this.maxQueueSize := if maxQueueSize == 0 then 1000 else maxQueueSize;
      queues, agents, activeTasks := [[], [], [], [], []], EmptyMap(), EmptyMap();
      completedTasks, roundRobinIndex, metrics, isRunning := [], 0, Counts(0, 0, 0, 0, 0, 0), false;
      ended, log, requeued := [], [], {};
    }

    // ---------- Selecting an agent ----------

    method SelectAgent(task: Task, available: seq<Agent>) returns (r: Option<Agent>)
      modifies this`roundRobinIndex
      ensures (r, roundRobinIndex) == Select(task, available, old(roundRobinIndex))
    {
      var candidates := Candidates(task, available);
      if task.preferredAgent != "" {
        var preferred := FindAgent(candidates, task.preferredAgent);
        if preferred.Some? {
          return preferred;
        }
      }
      if candidates == [] {
        return None;
      }
      match task.strategy
      case ROUND_ROBIN =>
        var agent := candidates[Rem(roundRobinIndex, |candidates|)];
        roundRobinIndex := Rem(roundRobinIndex + 1, |candidates|);
        return Some(agent);
      case LOAD_BASED =>
        var agent := LoadBasedSelect(candidates);
        return Some(agent);
      case _ =>
        return Some(candidates[0]);
    }

    /** The reduction over the candidates. */
    method LoadBasedSelect(candidates: seq<Agent>) returns (min: Agent)
      requires candidates != []
      ensures min == candidates[LeastLoaded(candidates, |candidates|)]
    {
      min := candidates[0];
      for i := 1 to |candidates|
        invariant min == candidates[LeastLoaded(candidates, i)]
      {
        var agent := candidates[i];
        if Load(agent) < Load(min) {
          min := agent;
        }
      }
    }

    method GetAvailableAgents() returns (r: seq<Agent>)
      ensures r == Available(agents)
    {
      r := [];
      for i := 0 to |agents.keys|
        invariant r == FreeOf(ValuesOf(agents)[..i])
      {
        assert agents.keys[i] in agents.keys;
        var agent := agents.vals[agents.keys[i]];
        assert ValuesOf(agents)[..i + 1][..i] == ValuesOf(agents)[..i];
        if agent.currentLoad < agent.maxConcurrent {
          r := r + [agent];
        }
      }
      assert ValuesOf(agents)[..|agents.keys|] == ValuesOf(agents);
    }

    // ---------- A pass ----------

    method ScheduleTask(task: Task, agent: Agent)
      modifies this`activeTasks, this`metrics, this`log
      ensures activeTasks == old(activeTasks).Set(task.id, Placed(Assignment(task, agent)))
      ensures metrics == old(metrics).(scheduled := old(metrics).scheduled + 1) && log == old(log) + [task]
    {
      activeTasks := activeTasks.Set(task.id, task.(state := SCHEDULED, assignedAgent := Some(agent.id)));
      metrics := metrics.(scheduled := metrics.scheduled + 1);
      log := log + [task];
    }

    /** The inner loop, over one queue. */
    method ProcessQueue(priority: nat, agentsLeft: seq<Agent>) returns (available: seq<Agent>)
      requires Valid() && priority < PRIORITIES
      modifies this`queues, this`activeTasks, this`metrics, this`log, this`roundRobinIndex
      ensures var p := WorkQueue(old(queues)[priority], agentsLeft, old(roundRobinIndex));
        && queues == old(queues)[priority := p.left] && available == p.available && roundRobinIndex == p.rr
        && Done(old(activeTasks), old(log), old(metrics), p.taken, activeTasks, log, metrics)
    {
      available := agentsLeft;
      ghost var whole := WorkQueue(queues[priority], agentsLeft, roundRobinIndex);
      ghost var taken: seq<Assignment> := [];
      NothingDone(activeTasks, log, metrics);
      while queues[priority] != [] && available != []
        invariant |queues| == PRIORITIES && queues == old(queues)[priority := queues[priority]]
        invariant Resumes(whole, taken, WorkQueue(queues[priority], available, roundRobinIndex))
        invariant Done(old(activeTasks), old(log), old(metrics), taken, activeTasks, log, metrics)
        decreases |queues[priority]|
      {
        var task := queues[priority][0];
        var agent := SelectAgent(task, available);
        if agent.None? {
          break;
        }
        ghost var a := Assignment(task, agent.value);
        ResumesNext(whole, taken, a,
          WorkQueue(queues[priority][1..], DropAgent(available, agent.value.id), roundRobinIndex));
        DoneNext(old(activeTasks), old(log), old(metrics), taken, activeTasks, log, metrics, a);
        queues := queues[priority := queues[priority][1..]];
        ScheduleTask(task, agent.value);
        available := DropAgent(available, agent.value.id);
        taken := taken + [a];
      }
      assert taken + [] == taken;
    }

    /** The outer loop, over the priorities. */
    method ProcessAll(agentsLeft: seq<Agent>)
      requires Valid()
      modifies this`queues, this`activeTasks, this`metrics, this`log, this`roundRobinIndex
      ensures var r := WorkQueues(old(queues), PRIORITIES, agentsLeft, old(roundRobinIndex));
        && queues == r.queues && roundRobinIndex == r.rr
        && Done(old(activeTasks), old(log), old(metrics), Flatten(r.taken), activeTasks, log, metrics)
    {
      var available := agentsLeft;
      NothingDone(activeTasks, log, metrics);
      for priority := 0 to PRIORITIES
        invariant Valid()
        invariant var r := WorkQueues(old(queues), priority, agentsLeft, old(roundRobinIndex));
          && queues == r.queues && available == r.available && roundRobinIndex == r.rr
          && Done(old(activeTasks), old(log), old(metrics), Flatten(r.taken), activeTasks, log, metrics)
      {
        ghost var r := WorkQueues(old(queues), priority, agentsLeft, old(roundRobinIndex));
        ghost var p := WorkQueue(r.queues[priority], r.available, r.rr);
        ghost var active1, log1, metrics1 := activeTasks, log, metrics;
        available := ProcessQueue(priority, available);
        FlattenNext(r.taken, p.taken);
        DoneJoin(old(activeTasks), old(log), old(metrics), Flatten(r.taken), active1, log1, metrics1, p.taken,
          activeTasks, log, metrics);
      }
    }

    method ProcessQueues()
      requires Valid()
      modifies this
      ensures Valid() && State() == PassStep(old(State()))
    {
      if !isRunning {
        return;
      }
      var available := GetAvailableAgents();
      if available == [] {
        NobodyFree(State());
        return;
      }
      ProcessAll(available);
    }

    // ---------- Submitting and cancelling ----------

    method GetTotalQueueSize() returns (total: nat)
      ensures total == Total(queues)
    {
      total := 0;
      for i := 0 to |queues|
        invariant total == Total(queues[..i])
      {
        assert queues[..i + 1][..i] == queues[..i];
        total := total + |queues[i]|;
      }
      assert queues[..|queues|] == queues;
    }

    method Submit(r: Request) returns (result: Submitted)
      requires Valid()
      modifies this
      ensures Valid() && (State(), result) == SubmitStep(old(State()), maxQueueSize, r)
    {
      if r.id == "" {
        return Rejected(MissingId);
      }
      var size := GetTotalQueueSize();
      if size >= maxQueueSize {
        return Rejected(QueueFull);
      }
      if r.priority < 0 || r.priority >= PRIORITIES {
        return Rejected(UnknownPriority);
      }
      var task := Task(r.id, metrics.submitted, r.priority, r.strategy, r.requiredCapability, r.preferredAgent,
        PENDING, None);
      queues := queues[r.priority := queues[r.priority] + [task]];
      metrics := metrics.(submitted := metrics.submitted + 1);
      ProcessQueues();
      return Accepted(task);
    }

    method AddToCompletedHistory(task: Task)
      modifies this`completedTasks, this`ended
      ensures completedTasks == Remembered(old(completedTasks), task) && ended == old(ended) + [task]
    {
      completedTasks := completedTasks + [task];
      ended := ended + [task];
      ghost var whole := completedTasks;
      while |completedTasks| > MAX_HISTORY
        invariant |completedTasks| <= |whole| && completedTasks == whole[|whole| - |completedTasks|..]
        invariant |completedTasks| == |whole| || |completedTasks| >= MAX_HISTORY
        invariant ended == old(ended) + [task]
        decreases |completedTasks|
      {
        completedTasks := completedTasks[1..];
      }
    }

    method Cancel(taskId: Id) returns (cancelled: bool)
      requires Valid()
      modifies this
      ensures Valid() && (State(), cancelled) == CancelStep(old(State()), taskId)
    {
      if activeTasks.Has(taskId) {
        return false;
      }
      var p := 0;
      while p < |queues|
        invariant p <= |queues| && QueueWith(queues, 0, taskId) == QueueWith(queues, p, taskId)
      {
        var index := IndexOf(queues[p], taskId);
        if index < |queues[p]| {
          var task := queues[p][index].(state := CANCELLED);
          queues := queues[p := RemoveAt(queues[p], index)];
          metrics := metrics.(cancelled := metrics.cancelled + 1);
          AddToCompletedHistory(task);
          return true;
        }
        p := p + 1;
      }
      return false;
    }

    // ---------- Marks ----------

    method MarkTaskStarted(taskId: Id, agentId: Id)
      modifies this
      ensures State() == StartStep(old(State()), taskId, agentId)
    {
      if !activeTasks.Has(taskId) {
        return;
      }
      activeTasks :=
        activeTasks.Set(taskId, activeTasks.vals[taskId].(state := RUNNING, assignedAgent := Some(agentId)));
      if agents.Has(agentId) {
        agents := agents.Set(agentId, agents.vals[agentId].(currentLoad := agents.vals[agentId].currentLoad + 1));
      }
    }

    method DecreaseLoad(owner: Option<Id>, completed: bool)
      modifies this`agents
      ensures agents == DropLoad(old(agents), owner, completed)
    {
      if owner.Some? && owner.value != "" && agents.Has(owner.value) {
        var agent := agents.vals[owner.value];
        agent := agent.(currentLoad := if agent.currentLoad > 0 then agent.currentLoad - 1 else 0);
        if completed {
          agent := agent.(totalTasks := agent.totalTasks + 1);
        }
        agents := agents.Set(owner.value, agent);
      }
    }

    /** What the three marks that end a task have in common. */
    method Retire(taskId: Id, state: TaskState)
      requires activeTasks.Has(taskId)
      modifies this`activeTasks, this`agents, this`completedTasks, this`ended, this`metrics
      ensures State() == RetireStep(old(State()), taskId, state)
    {
      var task := activeTasks.vals[taskId].(state := state);
      metrics := Tally(metrics, state);
      DecreaseLoad(task.assignedAgent, state == COMPLETED);
      activeTasks := activeTasks.Delete(taskId);
      AddToCompletedHistory(task);
    }

    method MarkTaskCompleted(taskId: Id)
      requires Valid()
      modifies this
      ensures Valid() && State() == EndStep(old(State()), taskId, COMPLETED)
    {
      if activeTasks.Has(taskId) {
        Retire(taskId, COMPLETED);
        ProcessQueues();
      }
    }

    method MarkTaskFailed(taskId: Id)
      requires Valid()
      modifies this
      ensures Valid() && State() == EndStep(old(State()), taskId, FAILED)
    {
      if activeTasks.Has(taskId) {
        Retire(taskId, FAILED);
        ProcessQueues();
      }
    }

    method MarkTaskTimeout(taskId: Id)
      requires Valid()
      modifies this
      ensures Valid() && State() == EndStep(old(State()), taskId, TIMEOUT)
    {
      if activeTasks.Has(taskId) {
        Retire(taskId, TIMEOUT);
        ProcessQueues();
      }
    }

    // ---------- Agents ----------

    method RegisterAgent(id: Id, capabilities: set<string>, maxConcurrent: int)
      modifies this
      ensures State() == RegisterStep(old(State()), id, capabilities, maxConcurrent)
    {
      agents := agents.Set(id, Agent(id, capabilities, if maxConcurrent == 0 then 1 else maxConcurrent, 0, 0));
    }

    method UnregisterAgent(agentId: Id) returns (existed: bool)
      requires Valid()
      modifies this
      ensures Valid() && (State(), existed) == UnregisterStep(old(State()), agentId)
    {
      if !agents.Has(agentId) {
        return false;
      }
      ReassignAgentTasks(agentId);
      agents := agents.Delete(agentId);
      return true;
    }

    /** The loop over the active tasks; one that is deleted meanwhile is not visited again. */
    method ReassignAgentTasks(agentId: Id)
      requires Valid()
      modifies this
      ensures Valid() && State() == Reassign(old(State()), old(activeTasks.keys), agentId)
    {
      var ids := activeTasks.keys;
      for i := 0 to |ids|
        invariant Valid() && State() == Reassign(old(State()), ids[..i], agentId)
      {
        assert ids[..i + 1][..i] == ids[..i];
        ReassignTask(ids[i], agentId);
      }
      assert ids[..|ids|] == ids;
    }

    method ReassignTask(id: Id, agentId: Id)
      requires Valid()
      modifies this
      ensures Valid() && State() == ReassignOne(old(State()), id, agentId)
    {
      if activeTasks.Has(id) {
        var task := activeTasks.vals[id];
        if task.assignedAgent == Some(agentId) && task.state == SCHEDULED && task.priority < |queues| {
          task := task.(state := PENDING, assignedAgent := None);
          queues := queues[task.priority := [task] + queues[task.priority]];
          activeTasks := activeTasks.Delete(id);
          requeued := requeued + {task.serial};
        }
      }
    }

    // ---------- Running ----------

    method Start()
      modifies this`isRunning
      ensures State() == old(State()).(isRunning := true)
    {
      isRunning := true;
    }

    method Stop()
      modifies this`isRunning
      ensures State() == old(State()).(isRunning := false)
    {
      isRunning := false;
    }

    method ClearHistory()
      modifies this`completedTasks
      ensures State() == old(State()).(history := [])
    {
      completedTasks := [];
    }
  }

  /** What scheduling `taken` leaves of the active tasks, the log and the counters. */
  ghost predicate Done(active: JsMap<Id, Task>, log: seq<Task>, c: Counts, taken: seq<Assignment>,
                       active': JsMap<Id, Task>, log': seq<Task>, c': Counts) {
    active' == ScheduleAll(active, taken) && log' == log + TasksOf(taken)
      && c' == c.(scheduled := c.scheduled + |taken|)
  }

  lemma NothingDone(active: JsMap<Id, Task>, log: seq<Task>, c: Counts)
    ensures Done(active, log, c, [], active, log, c) && Flatten([]) == []
  {
    assert log + TasksOf([]) == log;
  }

  lemma DoneNext(active: JsMap<Id, Task>, log: seq<Task>, c: Counts, taken: seq<Assignment>,
                 active': JsMap<Id, Task>, log': seq<Task>, c': Counts, a: Assignment)
    requires Done(active, log, c, taken, active', log', c')
    ensures Done(active, log, c, taken + [a], active'.Set(a.task.id, Placed(a)), log'
      + [a.task], c'.(scheduled := c'.scheduled + 1))
  {
    ScheduleAllNext(active, taken, a);
  }

  lemma DoneJoin(active: JsMap<Id, Task>, log: seq<Task>, c: Counts, first: seq<Assignment>,
                 active1: JsMap<Id, Task>, log1: seq<Task>, c1: Counts, second: seq<Assignment>,
                 active2: JsMap<Id, Task>, log2: seq<Task>, c2: Counts)
    requires Done(active, log, c, first, active1, log1, c1) && Done(active1, log1, c1, second, active2, log2, c2)
    ensures Done(active, log, c, first + second, active2, log2, c2)
  {
    ScheduleAllJoin(active, first, second);
    assert TasksOf(first + second) == TasksOf(first) + TasksOf(second);
  }

  /** What is still to come of a pass over one queue, after `taken`. */
  ghost predicate Resumes(whole: Pass, taken: seq<Assignment>, rest: Pass) {
    whole.left == rest.left && whole.available == rest.available && whole.rr == rest.rr
      && whole.taken == taken + rest.taken
  }

  lemma ResumesNext(whole: Pass, taken: seq<Assignment>, a: Assignment, after: Pass)
    requires Resumes(whole, taken, after.(taken := [a] + after.taken))
    ensures Resumes(whole, taken + [a], after)
  {
    assert taken + ([a] + after.taken) == taken + [a] + after.taken;
  }

  lemma ScheduleAllNext(active: JsMap<Id, Task>, taken: seq<Assignment>, a: Assignment)
    ensures ScheduleAll(active, taken + [a]) == ScheduleAll(active, taken).Set(a.task.id, Placed(a))
    ensures TasksOf(taken + [a]) == TasksOf(taken) + [a.task]
  {
    assert (taken + [a])[..|taken|] == taken;
  }

  lemma {:induction false} ScheduleAllJoin(active: JsMap<Id, Task>, first: seq<Assignment>, second: seq<Assignment>)
    ensures ScheduleAll(active, first + second) == ScheduleAll(ScheduleAll(active, first), second)
  {
    if second == [] {
      assert first + second == first;
    } else {
      var init, a := second[..|second| - 1], second[|second| - 1];
      ScheduleAllJoin(active, first, init);
      assert first + second == first + init + [a];
      ScheduleAllNext(active, first + init, a);
    }
  }

  lemma FlattenNext(taken: seq<seq<Assignment>>, more: seq<Assignment>)
    ensures Flatten(taken + [more]) == Flatten(taken) + more
  {
    assert (taken + [more])[..|taken|] == taken;
  }

  lemma {:induction false} NobodyWorks(queues: seq<seq<Task>>, n: nat, rr: nat)
    requires n <= |queues|
    ensures var r := WorkQueues(queues, n, [], rr);
      r.queues == queues && r.available == [] && r.rr == rr && Flatten(r.taken) == []
  {
    if n > 0 {
      NobodyWorks(queues, n - 1, rr);
      var r := WorkQueues(queues, n - 1, [], rr);
      FlattenNext(r.taken, []);
      assert queues[n - 1 := queues[n - 1]] == queues;
    }
  }

  /** Without a free agent a pass changes nothing. */
  lemma NobodyFree(s: Sched)
    requires |s.queues| == PRIORITIES && Available(s.agents) == []
    ensures PassStep(s) == s
  {
    NobodyWorks(s.queues, PRIORITIES, s.rr);
    assert s.log + TasksOf([]) == s.log;
  }
}
