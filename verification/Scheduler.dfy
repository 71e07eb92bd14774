/**
 src/agents/scheduler.js, the steps of the scheduler: submit, cancel, the task marks, registration and
 the reassignment of a departing agent's tasks, each followed by a pass where the source runs one.
 */
module Scheduler {
  import opened JsCollections
  import opened Dispatch

  const PRIORITIES: nat := 5

  const MAX_HISTORY: nat := 100

  datatype Counts = Counts(submitted: nat, scheduled: nat, completed: nat, failed: nat, cancelled: nat, timedOut: nat)

  /**
   `queues[p]` is `this.queues.get(p)`. Three logs say what happened: `ended` has every task that ended,
   `log` every task in the order of scheduling, `requeued` the serials of tasks put back by a departing agent.
   */
  datatype Sched = Sched(
    queues: seq<seq<Task>>, agents: JsMap<Id, Agent>, active: JsMap<Id, Task>, history: seq<Task>, rr: nat,
    counts: Counts, isRunning: bool, ended: seq<Task>, log: seq<Task>, requeued: set<nat>)

  const INITIAL: Sched :=
    Sched([[], [], [], [], []], EmptyMap(), EmptyMap(), [], 0, Counts(0, 0, 0, 0, 0, 0), false, [], [], {})

  // ---------- A pass ----------

  function FreeOf(list: seq<Agent>): seq<Agent> {
    if list == [] then []
    else if Free(list[|list| - 1]) then FreeOf(list[..|list| - 1]) + [list[|list| - 1]]
    else FreeOf(list[..|list| - 1])
  }

  function Available(agents: JsMap<Id, Agent>): seq<Agent> { FreeOf(ValuesOf(agents)) }

  function Placed(a: Assignment): Task { a.task.(state := SCHEDULED, assignedAgent := Some(a.agent.id)) }

  function ScheduleAll(active: JsMap<Id, Task>, taken: seq<Assignment>): JsMap<Id, Task> {
    if taken == [] then active
    else ScheduleAll(active, taken[..|taken| - 1]).Set(taken[|taken| - 1].task.id, Placed(taken[|taken| - 1]))
  }

  function PassStep(s: Sched): Sched
    requires |s.queues| == PRIORITIES
  {
    if !s.isRunning then s
    else
      var r := WorkQueues(s.queues, PRIORITIES, Available(s.agents), s.rr);
      var taken := Flatten(r.taken);
      s.(queues := r.queues, rr := r.rr, active := ScheduleAll(s.active, taken),
         counts := s.counts.(scheduled := s.counts.scheduled + |taken|), log := s.log + TasksOf(taken))
  }

  // ---------- Submitting and cancelling ----------

  datatype SubmitError = MissingId | QueueFull | UnknownPriority

  datatype Submitted = Accepted(task: Task) | Rejected(error: SubmitError)

  datatype Request = Request(id: Id, priority: int, strategy: Strategy, requiredCapability: string, preferredAgent: Id)

  function Total(queues: seq<seq<Task>>): nat {
    if queues == [] then 0 else Total(queues[..|queues| - 1]) + |queues[|queues| - 1]|
  }

  function NewTask(r: Request, serial: nat): Task
    requires 0 <= r.priority
  {
    Task(r.id, serial, r.priority, r.strategy, r.requiredCapability, r.preferredAgent, PENDING, None)
  }

  function SubmitStep(s: Sched, maxQueueSize: int, r: Request): (Sched, Submitted)
    requires |s.queues| == PRIORITIES
  {
    if r.id == "" then (s, Rejected(MissingId))
    else if Total(s.queues) >= maxQueueSize then (s, Rejected(QueueFull))
    else if r.priority < 0 || r.priority >= PRIORITIES then (s, Rejected(UnknownPriority))
    else
      var task := NewTask(r, s.counts.submitted);
      (PassStep(s.(queues := s.queues[r.priority := s.queues[r.priority] + [task]],
                   counts := s.counts.(submitted := s.counts.submitted + 1))), Accepted(task))
  }

  /** Array.prototype.findIndex by id: the length when there is none. */
  function IndexOf(queue: seq<Task>, id: Id): (i: nat)
    ensures i <= |queue| && (i < |queue| ==> queue[i].id == id)
    ensures forall j :: 0 <= j < i ==> queue[j].id != id
  {
    if queue == [] then 0 else if queue[0].id == id then 0 else 1 + IndexOf(queue[1..], id)
  }

  /** The first queue that has the id, at or after priority p: the number of queues when there is none. */
  function QueueWith(queues: seq<seq<Task>>, p: nat, id: Id): (q: nat)
    requires p <= |queues|
    ensures p <= q <= |queues|
    ensures q < |queues| ==> IndexOf(queues[q], id) < |queues[q]|
    decreases |queues| - p
  {
    if p == |queues| then p else if IndexOf(queues[p], id) < |queues[p]| then p else QueueWith(queues, p + 1, id)
  }

  function Remembered(history: seq<Task>, task: Task): seq<Task> {
    var all := history + [task];
    if |all| > MAX_HISTORY then all[|all| - MAX_HISTORY..] else all
  }

  function CancelStep(s: Sched, id: Id): (Sched, bool) {
    var p := QueueWith(s.queues, 0, id);
    if s.active.Has(id) || p == |s.queues| then (s, false)
    else
      var i := IndexOf(s.queues[p], id);
      var task := s.queues[p][i].(state := CANCELLED);
      (s.(queues := s.queues[p := RemoveAt(s.queues[p], i)], history := Remembered(s.history, task), ended :=
        s.ended + [task],
          counts := s.counts.(cancelled := s.counts.cancelled + 1)), true)
  }

  // ---------- Marks ----------

  function AddLoad(agents: JsMap<Id, Agent>, id: Id): JsMap<Id, Agent> {
    if !agents.Has(id) then agents else agents.Set(id, agents.vals[id].(currentLoad := agents.vals[id].currentLoad + 1))
  }

  /** An empty agent id is falsy. Only a completed task counts for the agent. */
  function DropLoad(agents: JsMap<Id, Agent>, owner: Option<Id>, done: bool): JsMap<Id, Agent> {
    if owner.None? || owner.value == "" || !agents.Has(owner.value) then agents
    else
      var a := agents.vals[owner.value];
      agents.Set(owner.value,
        a.(currentLoad := if a.currentLoad > 0 then a.currentLoad - 1
          else 0, totalTasks := if done then a.totalTasks + 1 else a.totalTasks))
  }

  function StartStep(s: Sched, taskId: Id, agentId: Id): Sched {
    if !s.active.Has(taskId) then s
    else
      var task := s.active.vals[taskId].(state := RUNNING, assignedAgent := Some(agentId));
      s.(active := s.active.Set(taskId, task), agents := AddLoad(s.agents, agentId))
  }

  predicate IsEnd(state: TaskState) { state in {COMPLETED, FAILED, TIMEOUT} }

  function Tally(c: Counts, state: TaskState): Counts {
    match state
    case COMPLETED => c.(completed := c.completed + 1)
    case FAILED => c.(failed := c.failed + 1)
    case TIMEOUT => c.(timedOut := c.timedOut + 1)
    case _ => c
  }

  /** markTaskCompleted, markTaskFailed and markTaskTimeout, before the pass that follows. */
  function RetireStep(s: Sched, taskId: Id, state: TaskState): Sched
    requires s.active.Has(taskId)
  {
    var task := s.active.vals[taskId].(state := state);
    s.(active := s.active.Delete(taskId), agents := DropLoad(s.agents, task.assignedAgent, state == COMPLETED),
       history := Remembered(s.history, task), ended := s.ended + [task], counts := Tally(s.counts, state))
  }

  function EndStep(s: Sched, taskId: Id, state: TaskState): Sched
    requires |s.queues| == PRIORITIES
  {
    if !s.active.Has(taskId) then s else PassStep(RetireStep(s, taskId, state))
  }

  // ---------- Agents ----------

  function RegisterStep(s: Sched, id: Id, capabilities: set<string>, maxConcurrent: int): Sched {
    s.(agents := s.agents.Set(id, Agent(id, capabilities, if maxConcurrent == 0 then 1 else maxConcurrent, 0, 0)))
  }

  /** One turn of the loop over the active tasks: an unstarted task of the agent goes back to the front of its queue. */
  function ReassignOne(s: Sched, id: Id, agentId: Id): Sched {
    if !s.active.Has(id) then s
    else
      var t := s.active.vals[id];
      if t.assignedAgent != Some(agentId) || t.state != SCHEDULED || t.priority >= |s.queues| then s
      else
        var task := t.(state := PENDING, assignedAgent := None);
        s.(queues := s.queues[t.priority := [task] + s.queues[t.priority]], active := s.active.Delete(id),
           requeued := s.requeued + {t.serial})
  }

  function Reassign(s: Sched, ids: seq<Id>, agentId: Id): (r: Sched)
    ensures |r.queues| == |s.queues|
  {
    if ids == [] then s else ReassignOne(Reassign(s, ids[..|ids| - 1], agentId), ids[|ids| - 1], agentId)
  }

  function UnregisterStep(s: Sched, agentId: Id): (Sched, bool) {
    if !s.agents.Has(agentId) then (s, false)
    else
      var s := Reassign(s, s.active.keys, agentId);
      (s.(agents := s.agents.Delete(agentId)), true)
  }
}
