/**
 src/agents/scheduler.js over whole runs: every task carries what its request asked for, wherever it is; the
 history is the last hundred that ended; agents are what they registered as; and what cancelling, and the
 departure of an agent, move.
 */
module SchedulerLaws {
  import opened JsCollections
  import opened Dispatch
  import opened Scheduler
  import opened SchedulerRuns
  import opened TaskCounts
  import Loss = SchedulerLoss

  // ---------- Tasks are what was requested ----------

  /** The requests a run has accepted, in order. */
  function Requests(maxQueueSize: int, ops: seq<Op>): seq<Request> {
    if ops == [] then []
    else
      var before, op := Requests(maxQueueSize, ops[..|ops| - 1]), ops[|ops| - 1];
      if op.Submit? && Loss.Accepts(After(maxQueueSize, ops[..|ops| - 1]), maxQueueSize, op.request)
      then before + [op.request] else before
  }

  predicate IsRequested(t: Task, r: Request) {
    && t.id == r.id && t.priority == r.priority && t.strategy == r.strategy
    && t.requiredCapability == r.requiredCapability && t.preferredAgent == r.preferredAgent
  }

  /** The task of serial n is the n-th request, all of it. */
  ghost predicate Carries(t: Task, requests: seq<Request>) {
    t.serial < |requests| && IsRequested(t, requests[t.serial])
  }

  ghost predicate Waiting(t: Task, p: nat, requests: seq<Request>) {
    Carries(t, requests) && t.priority == p && t.state == PENDING && t.assignedAgent == None
  }

  ghost predicate QueuesCarry(queues: seq<seq<Task>>, requests: seq<Request>) {
    forall p, i :: 0 <= p < |queues| && 0 <= i < |queues[p]| ==> Waiting(queues[p][i], p, requests)
  }

  ghost predicate Underway(t: Task, id: Id, requests: seq<Request>) {
    Carries(t, requests) && t.id == id && t.state in {SCHEDULED, RUNNING} && t.assignedAgent.Some?
  }

  ghost predicate ActiveCarry(active: Active, requests: seq<Request>) {
    forall id :: id in active.vals ==> Underway(active.vals[id], id, requests)
  }

  ghost predicate Over(t: Task, requests: seq<Request>) {
    Carries(t, requests) && t.state in {COMPLETED, FAILED, CANCELLED, TIMEOUT}
  }

  ghost predicate EndedCarry(ended: seq<Task>, requests: seq<Request>) {
    forall i :: 0 <= i < |ended| ==> Over(ended[i], requests)
  }

  ghost predicate LogCarries(log: seq<Task>, requests: seq<Request>) {
    forall i :: 0 <= i < |log| ==> Carries(log[i], requests) && log[i].state == PENDING
  }

  ghost predicate AllCarry(s: Sched, requests: seq<Request>) {
    && |s.queues| == PRIORITIES && s.counts.submitted == |requests| && AgentsOk(s.agents)
    && QueuesCarry(s.queues, requests) && ActiveCarry(s.active, requests)
    && EndedCarry(s.ended, requests) && LogCarries(s.log, requests)
  }

  lemma StillCarries(t: Task, requests: seq<Request>, r: Request)
    requires Carries(t, requests)
    ensures Carries(t, requests + [r])
  {
  }

  lemma AllStillCarry(queues: seq<seq<Task>>, active: Active, ended: seq<Task>, log: seq<Task>,
      requests: seq<Request>, r: Request)
    requires QueuesCarry(queues, requests) && ActiveCarry(active, requests)
    requires EndedCarry(ended, requests) && LogCarries(log, requests)
    ensures QueuesCarry(queues, requests + [r]) && ActiveCarry(active, requests + [r])
    ensures EndedCarry(ended, requests + [r]) && LogCarries(log, requests + [r])
  {
    forall p, i | 0 <= p < |queues| && 0 <= i < |queues[p]| ensures Waiting(queues[p][i], p, requests + [r]) {
      assert Waiting(queues[p][i], p, requests);
    }
    forall id | id in active.vals ensures Underway(active.vals[id], id, requests + [r]) {
      assert Underway(active.vals[id], id, requests);
    }
    forall i | 0 <= i < |ended| ensures Over(ended[i], requests + [r]) {
      assert Over(ended[i], requests);
    }
  }

  lemma {:induction false} ScheduledCarry(active: Active, taken: seq<Assignment>, requests: seq<Request>)
    requires ActiveCarry(active, requests)
    requires forall i :: 0 <= i < |taken| ==> Carries(taken[i].task, requests)
    ensures ActiveCarry(ScheduleAll(active, taken), requests)
  {
    if taken != [] {
      ScheduledCarry(active, taken[..|taken| - 1], requests);
    }
  }

  lemma {:induction false} FlattenedIn(taken: seq<seq<Assignment>>, i: nat) returns (p: nat, j: nat)
    requires i < |Flatten(taken)|
    ensures p < |taken| && j < |taken[p]| && taken[p][j] == Flatten(taken)[i]
  {
    var n := |taken| - 1;
    if i < |Flatten(taken[..n])| {
      p, j := FlattenedIn(taken[..n], i);
    } else {
      p, j := n, i - |Flatten(taken[..n])|;
    }
  }

  lemma TakenCarry(queues: seq<seq<Task>>, taken: seq<seq<Assignment>>, left: seq<seq<Task>>,
      requests: seq<Request>)
    requires |taken| == |left| == |queues| && QueuesCarry(queues, requests)
    requires forall p :: 0 <= p < |queues| ==> queues[p] == TasksOf(taken[p]) + left[p]
    ensures QueuesCarry(left, requests) && LogCarries(TasksOf(Flatten(taken)), requests)
  {
    forall p, i | 0 <= p < |left| && 0 <= i < |left[p]| ensures Waiting(left[p][i], p, requests) {
      assert left[p][i] == queues[p][|taken[p]| + i];
    }
    forall i | 0 <= i < |Flatten(taken)|
      ensures Carries(Flatten(taken)[i].task, requests) && Flatten(taken)[i].task.state == PENDING
    {
      var p, j := FlattenedIn(taken, i);
      assert queues[p][j] == TasksOf(taken[p])[j];
      assert Waiting(queues[p][j], p, requests);
    }
  }

  lemma PassCarries(s: Sched, requests: seq<Request>)
    requires AllCarry(s, requests)
    ensures AllCarry(PassStep(s), requests)
  {
    if s.isRunning {
      var taken, after := TakenBy(s), PassStep(s).queues;
      PassIsWorkConserving(s);
      TakenCarry(s.queues, taken, after, requests);
      var flat := Flatten(taken);
      forall i | 0 <= i < |flat| ensures Carries(flat[i].task, requests) {
        assert TasksOf(flat)[i] == flat[i].task;
      }
      ScheduledCarry(s.active, flat, requests);
    }
  }

  lemma EnqueuedCarry(queues: seq<seq<Task>>, t: Task, requests: seq<Request>)
    requires QueuesCarry(queues, requests) && t.priority < |queues| && Waiting(t, t.priority, requests)
    ensures QueuesCarry(queues[t.priority := queues[t.priority] + [t]], requests)
    ensures QueuesCarry(queues[t.priority := [t] + queues[t.priority]], requests)
  {
    var last, first := queues[t.priority := queues[t.priority] + [t]], queues[t.priority := [t] + queues[t.priority]];
    forall p, i | 0 <= p < |last| && 0 <= i < |last[p]| ensures Waiting(last[p][i], p, requests) {
      if p != t.priority || i < |queues[p]| {
        assert last[p][i] == queues[p][i];
      }
    }
    forall p, i | 0 <= p < |first| && 0 <= i < |first[p]| ensures Waiting(first[p][i], p, requests) {
      if p != t.priority {
        assert first[p][i] == queues[p][i];
      } else if i > 0 {
        assert first[p][i] == queues[p][i - 1];
      }
    }
  }

  lemma SubmitCarries(s: Sched, maxQueueSize: int, r: Request, requests: seq<Request>)
    requires AllCarry(s, requests)
    ensures
      AllCarry(SubmitStep(s, maxQueueSize, r).0, if Loss.Accepts(s, maxQueueSize, r) then requests + [r] else requests)
  {
    if Loss.Accepts(s, maxQueueSize, r) {
      var t, all := NewTask(r, |requests|), requests + [r];
      AllStillCarry(s.queues, s.active, s.ended, s.log, requests, r);
      EnqueuedCarry(s.queues, t, all);
      PassCarries(s.(queues := s.queues[t.priority := s.queues[t.priority] + [t]],
                     counts := s.counts.(submitted := s.counts.submitted + 1)), all);
    }
  }

  lemma CancelCarries(s: Sched, id: Id, requests: seq<Request>)
    requires AllCarry(s, requests)
    ensures AllCarry(CancelStep(s, id).0, requests)
  {
    var p := QueueWith(s.queues, 0, id);
    if !s.active.Has(id) && p < |s.queues| {
      var i := IndexOf(s.queues[p], id);
      var left := s.queues[p := RemoveAt(s.queues[p], i)];
      assert Waiting(s.queues[p][i], p, requests);
      forall q, j | 0 <= q < |left| && 0 <= j < |left[q]| ensures Waiting(left[q][j], q, requests) {
        assert left[q][j] == s.queues[q][if q != p || j < i then j else j + 1];
      }
    }
  }

  lemma ReassignOneCarries(s: Sched, id: Id, agent: Id, requests: seq<Request>)
    requires AllCarry(s, requests)
    ensures AllCarry(ReassignOne(s, id, agent), requests)
  {
    if s.active.Has(id) && s.active.vals[id].priority < |s.queues| {
      assert Underway(s.active.vals[id], id, requests);
      EnqueuedCarry(s.queues, s.active.vals[id].(state := PENDING, assignedAgent := None), requests);
    }
  }

  lemma {:induction false} ReassignCarries(s: Sched, ids: seq<Id>, agent: Id, requests: seq<Request>)
    requires AllCarry(s, requests)
    ensures AllCarry(Reassign(s, ids, agent), requests)
  {
    if ids != [] {
      ReassignCarries(s, ids[..|ids| - 1], agent, requests);
      ReassignOneCarries(Reassign(s, ids[..|ids| - 1], agent), ids[|ids| - 1], agent, requests);
    }
  }

  lemma StartCarries(s: Sched, id: Id, agent: Id, requests: seq<Request>)
    requires AllCarry(s, requests)
    ensures AllCarry(StartStep(s, id, agent), requests)
  {
    if s.active.Has(id) {
      assert Underway(s.active.vals[id], id, requests);
    }
  }

  lemma RetireCarries(s: Sched, id: Id, state: TaskState, requests: seq<Request>)
    requires AllCarry(s, requests) && s.active.Has(id) && IsEnd(state)
    ensures AllCarry(RetireStep(s, id, state), requests)
  {
    assert Underway(s.active.vals[id], id, requests);
  }

  lemma ApplyCarries(maxQueueSize: int, s: Sched, op: Op, requests: seq<Request>)
    requires AllCarry(s, requests)
    ensures AllCarry(Apply(maxQueueSize, s, op),
      if op.Submit? && Loss.Accepts(s, maxQueueSize, op.request) then requests + [op.request] else requests)
  {
    match op
    case Submit(r) => SubmitCarries(s, maxQueueSize, r, requests);
    case Cancel(id) => CancelCarries(s, id, requests);
    case Start(id, agent) => StartCarries(s, id, agent, requests);
    case End(id, state) =>
      if IsEnd(state) && s.active.Has(id) {
        RetireCarries(s, id, state, requests);
        PassCarries(RetireStep(s, id, state), requests);
      }
    case Register(id, caps, max) =>
    case Unregister(id) => ReassignCarries(s, s.active.keys, id, requests);
    case Tick => PassCarries(s, requests);
    case Run =>
    case Stop =>
    case ClearHistory =>
  }

  /**
   In every run: as many tasks are submitted as requests accepted, and every task, waiting, underway or over, is
   the request of its serial, with its id, priority, strategy, capability and preference. What waits is pending and
   in the queue of its priority, what is underway has an agent.
   */
  lemma {:induction false} TasksCarryRequests(maxQueueSize: int, ops: seq<Op>)
    ensures AllCarry(After(maxQueueSize, ops), Requests(maxQueueSize, ops))
  {
    if ops != [] {
      var init := ops[..|ops| - 1];
      TasksCarryRequests(maxQueueSize, init);
      ApplyCarries(maxQueueSize, After(maxQueueSize, init), ops[|ops| - 1], Requests(maxQueueSize, init));
    }
  }

  /** submit refuses what has no id, no room or no queue, and nothing changes; else it answers with what was asked. */
  lemma SubmitAnswers(s: Sched, maxQueueSize: int, r: Request)
    requires |s.queues| == PRIORITIES
    ensures var (after, answer) := SubmitStep(s, maxQueueSize, r);
      match answer
      case Accepted(t) =>
        && r.id != "" && Total(s.queues) < maxQueueSize && 0 <= r.priority <= 4
        && IsRequested(t, r) && t.serial == s.counts.submitted
        && t.state == PENDING && after.counts.submitted == s.counts.submitted + 1
      case Rejected(e) =>
        && after == s
        && (r.id == "" || Total(s.queues) >= maxQueueSize || r.priority < 0 || r.priority > 4)
        && (e == MissingId <==> r.id == "") && (e == QueueFull <==> r.id != "" && Total(s.queues) >= maxQueueSize)
  {
  }

  // ---------- History ----------

  function LastHundred(list: seq<Task>): seq<Task> { if |list| <= 100 then list else list[|list| - 100..] }

  /** How many tasks had ended when the history was last cleared. */
  function ClearedAt(maxQueueSize: int, ops: seq<Op>): nat {
    if ops == [] then 0
    else if ops[|ops| - 1].ClearHistory? then |After(maxQueueSize, ops[..|ops| - 1]).ended|
    else ClearedAt(maxQueueSize, ops[..|ops| - 1])
  }

  ghost predicate HistoryOk(s: Sched, cleared: nat) {
    cleared <= |s.ended| && s.history == LastHundred(s.ended[cleared..])
  }

  lemma RememberedIsLast(list: seq<Task>, t: Task)
    ensures Remembered(LastHundred(list), t) == LastHundred(list + [t])
  {
  }

  lemma OneMoreEnded(s: Sched, cleared: nat, t: Task, s': Sched)
    requires HistoryOk(s, cleared) && s'.ended == s.ended + [t] && s'.history == Remembered(s.history, t)
    ensures HistoryOk(s', cleared)
  {
    RememberedIsLast(s.ended[cleared..], t);
    assert s'.ended[cleared..] == s.ended[cleared..] + [t];
  }

  lemma {:induction false} ReassignLeavesHistory(s: Sched, ids: seq<Id>, agent: Id)
    ensures Reassign(s, ids, agent).history == s.history && Reassign(s, ids, agent).ended == s.ended
    ensures Reassign(s, ids, agent).agents == s.agents
  {
    if ids != [] {
      ReassignLeavesHistory(s, ids[..|ids| - 1], agent);
    }
  }

  lemma ApplyKeepsHistory(maxQueueSize: int, s: Sched, op: Op, cleared: nat)
    requires |s.queues| == PRIORITIES && HistoryOk(s, cleared)
    ensures HistoryOk(Apply(maxQueueSize, s, op), if op.ClearHistory? then |s.ended| else cleared)
  {
    match op
    case Submit(r) =>
    case Cancel(id) =>
      var p := QueueWith(s.queues, 0, id);
      if !s.active.Has(id) && p < |s.queues| {
        OneMoreEnded(s, cleared, s.queues[p][IndexOf(s.queues[p], id)].(state := CANCELLED), CancelStep(s, id).0);
      }
    case Start(id, agent) =>
    case End(id, state) =>
      if IsEnd(state) && s.active.Has(id) {
        OneMoreEnded(s, cleared, s.active.vals[id].(state := state), RetireStep(s, id, state));
      }
    case Register(id, caps, max) =>
    case Unregister(id) => ReassignLeavesHistory(s, s.active.keys, id);
    case Tick =>
    case Run =>
    case Stop =>
    case ClearHistory =>
  }

  /** The history is the last hundred tasks that have ended since it was last cleared, in the order they ended. */
  lemma {:induction false} HistoryIsLastHundred(maxQueueSize: int, ops: seq<Op>)
    ensures HistoryOk(After(maxQueueSize, ops), ClearedAt(maxQueueSize, ops))
  {
    if ops != [] {
      var init := ops[..|ops| - 1];
      HistoryIsLastHundred(maxQueueSize, init);
      ApplyKeepsHistory(maxQueueSize, After(maxQueueSize, init), ops[|ops| - 1], ClearedAt(maxQueueSize, init));
    }
  }

  // ---------- Agents ----------

  /** What an agent registered as, and how many tasks had ended by then. */
  datatype Entry = Entry(capabilities: set<string>, maxConcurrent: int, since: nat)

  /** The last registration of an id that has not been followed by its departure. */
  function EntryOf(maxQueueSize: int, ops: seq<Op>, id: Id): Option<Entry> {
    if ops == [] then None
    else
      match ops[|ops| - 1]
      case Register(x, capabilities, max) =>
        if x == id then Some(Entry(capabilities, max, |After(maxQueueSize, ops[..|ops| - 1]).ended|))
        else EntryOf(maxQueueSize, ops[..|ops| - 1], id)
      case Unregister(x) => if x == id then None else EntryOf(maxQueueSize, ops[..|ops| - 1], id)
      case _ => EntryOf(maxQueueSize, ops[..|ops| - 1], id)
  }

  /** The tasks of a list that an agent completed. */
  function CompletedBy(list: seq<Task>, id: Id): nat {
    if list == [] then 0
    else
      var t := list[|list| - 1];
      CompletedBy(list[..|list| - 1], id) + if t.state == COMPLETED && t.assignedAgent == Some(id) then 1 else 0
  }

  /** An agent is what it registered as, and counts the tasks it completed since; nobody with the empty id does. */
  ghost predicate AgentIs(agents: JsMap<Id, Agent>, ended: seq<Task>, id: Id, entry: Option<Entry>) {
    match entry
    case None => !agents.Has(id)
    case Some(e) =>
      && agents.Has(id) && e.since <= |ended|
      && var a := agents.vals[id];
      && a.id == id && a.capabilities == e.capabilities
      && a.maxConcurrent == (if e.maxConcurrent == 0 then 1 else e.maxConcurrent)
      && a.totalTasks == if id == "" then 0 else CompletedBy(ended[e.since..], id)
  }

  lemma CompletedNext(list: seq<Task>, t: Task, id: Id)
    ensures CompletedBy(list + [t], id)
      == CompletedBy(list, id) + if t.state == COMPLETED && t.assignedAgent == Some(id) then 1 else 0
  {
    assert (list + [t])[..|list|] == list;
  }

  lemma DroppedAgent(agents: JsMap<Id, Agent>, ended: seq<Task>, id: Id, entry: Option<Entry>, t: Task)
    requires AgentIs(agents, ended, id, entry)
    ensures AgentIs(DropLoad(agents, t.assignedAgent, t.state == COMPLETED), ended + [t], id, entry)
  {
    if entry.Some? {
      CompletedNext(ended[entry.value.since..], t, id);
      assert (ended + [t])[entry.value.since..] == ended[entry.value.since..] + [t];
    }
  }

  lemma SameAgent(agents: JsMap<Id, Agent>, ended: seq<Task>, id: Id, entry: Option<Entry>, t: Task)
    requires AgentIs(agents, ended, id, entry) && t.state != COMPLETED
    ensures AgentIs(agents, ended + [t], id, entry)
  {
    if entry.Some? {
      CompletedNext(ended[entry.value.since..], t, id);
      assert (ended + [t])[entry.value.since..] == ended[entry.value.since..] + [t];
    }
  }

  lemma {:induction false} AgentsAreAsRegistered(maxQueueSize: int, ops: seq<Op>, id: Id)
    ensures var s := After(maxQueueSize, ops); AgentIs(s.agents, s.ended, id, EntryOf(maxQueueSize, ops, id))
  {
    if ops != [] {
      var init, op := ops[..|ops| - 1], ops[|ops| - 1];
      AgentsAreAsRegistered(maxQueueSize, init, id);
      var s := After(maxQueueSize, init);
      ApplyKeepsAgents(maxQueueSize, s, op, id, EntryOf(maxQueueSize, init, id), EntryOf(maxQueueSize, ops, id));
    }
  }

  lemma ApplyKeepsAgents(maxQueueSize: int, s: Sched, op: Op, id: Id, entry: Option<Entry>, entry': Option<Entry>)
    requires |s.queues| == PRIORITIES && AgentIs(s.agents, s.ended, id, entry)
    requires entry' == match op
      case Register(x, caps, max) => if x == id then Some(Entry(caps, max, |s.ended|)) else entry
      case Unregister(x) => if x == id then None else entry
      case _ => entry
    ensures AgentIs(Apply(maxQueueSize, s, op).agents, Apply(maxQueueSize, s, op).ended, id, entry')
  {
    match op
    case Submit(r) =>
    case Cancel(x) =>
      var p := QueueWith(s.queues, 0, x);
      if !s.active.Has(x) && p < |s.queues| {
        SameAgent(s.agents, s.ended, id, entry, s.queues[p][IndexOf(s.queues[p], x)].(state := CANCELLED));
      }
    case Start(x, agent) =>
    case End(x, state) =>
      if IsEnd(state) && s.active.Has(x) {
        DroppedAgent(s.agents, s.ended, id, entry, s.active.vals[x].(state := state));
      }
    case Register(x, caps, max) => assert s.ended[|s.ended|..] == [];
    case Unregister(x) => ReassignLeavesHistory(s, s.active.keys, x);
    case Tick =>
    case Run =>
    case Stop =>
    case ClearHistory =>
  }

  // ---------- Cancelling ----------

  /** The first task of that id, in the most urgent queue that has one. */
  ghost predicate FirstOf(queues: seq<seq<Task>>, id: Id, p: nat, i: nat) {
    && p < |queues| && i < |queues[p]| && queues[p][i].id == id
    && (forall j :: 0 <= j < i ==> queues[p][j].id != id)
    && (forall q, j :: 0 <= q < p && 0 <= j < |queues[q]| ==> queues[q][j].id != id)
  }

  lemma {:induction false} QueueWithIsFirst(queues: seq<seq<Task>>, p: nat, id: Id)
    requires p <= |queues|
    ensures var q := QueueWith(queues, p, id);
      forall r :: p <= r < q ==> IndexOf(queues[r], id) == |queues[r]|
    decreases |queues| - p
  {
    if p < |queues| && IndexOf(queues[p], id) == |queues[p]| {
      QueueWithIsFirst(queues, p + 1, id);
    }
  }

  lemma NoneBefore(queues: seq<seq<Task>>, q: nat, id: Id)
    requires q <= |queues| && forall r :: 0 <= r < q ==> IndexOf(queues[r], id) == |queues[r]|
    ensures forall r, j :: 0 <= r < q && 0 <= j < |queues[r]| ==> queues[r][j].id != id
  {
  }

  /**
   cancel removes the first waiting task of that id, which ends as cancelled, and leaves everything else; it does
   so exactly when there is one, and no task of that id is active.
   */
  lemma CancelTakesFirst(s: Sched, id: Id) returns (p: nat, i: nat)
    ensures var (after, cancelled) := CancelStep(s, id);
      if cancelled then
        && FirstOf(s.queues, id, p, i) && !s.active.Has(id)
        && after.queues == s.queues[p := s.queues[p][..i] + s.queues[p][i + 1..]]
        && after.ended == s.ended + [s.queues[p][i].(state := CANCELLED)]
        && after.active == s.active && after.agents == s.agents && after.log == s.log && after.rr == s.rr
      else
        after == s && (s.active.Has(id)
          || forall q, j :: 0 <= q < |s.queues| && 0 <= j < |s.queues[q]| ==> s.queues[q][j].id != id)
  {
    p := QueueWith(s.queues, 0, id);
    QueueWithIsFirst(s.queues, 0, id);
    NoneBefore(s.queues, p, id);
    i := if p < |s.queues| then IndexOf(s.queues[p], id) else 0;
  }

  // ---------- A departing agent ----------

  /** Assigned to the agent, and not started. */
  predicate Unstarted(t: Task, agent: Id) { t.assignedAgent == Some(agent) && t.state == SCHEDULED }

  /** The unstarted tasks of a departing agent, of one priority, pending again; those scheduled last come first. */
  function GivenBack(active: Active, ids: seq<Id>, agent: Id, p: nat): seq<Task>
    requires forall id :: id in ids ==> id in active.vals
  {
    if ids == [] then []
    else
      var before, t := GivenBack(active, ids[..|ids| - 1], agent, p), active.vals[ids[|ids| - 1]];
      if Unstarted(t, agent) && t.priority == p then [t.(state := PENDING, assignedAgent := None)] + before else before
  }

  /** After the tasks `ids` have been looked at. */
  ghost predicate Departing(s: Sched, ids: seq<Id>, agent: Id, after: Sched)
    requires forall id :: id in ids ==> id in s.active.vals
  {
    && |after.queues| == |s.queues|
    && (forall p :: 0 <= p < |s.queues| ==> after.queues[p] == GivenBack(s.active, ids, agent, p) + s.queues[p])
    && (forall id :: id in after.active.vals <==>
      id in s.active.vals && !(id in ids && Unstarted(s.active.vals[id], agent)))
    && (forall id :: id in after.active.vals ==> after.active.vals[id] == s.active.vals[id])
  }

  lemma DepartNext(s: Sched, init: seq<Id>, last: Id, agent: Id, before: Sched)
    requires NoDup(init + [last]) && forall id :: id in init + [last] ==> id in s.active.vals
    requires ActiveOk(s.active, |s.queues|)
    requires (forall id :: id in init ==> id in s.active.vals) && Departing(s, init, agent, before)
    ensures Departing(s, init + [last], agent, ReassignOne(before, last, agent))
  {
    var ids := init + [last];
    assert ids[..|ids| - 1] == init;
    assert last in ids && last !in init by {
      if i :| 0 <= i < |init| && init[i] == last {
        assert ids[i] == ids[|init|];
      }
    }
    forall p | 0 <= p < |s.queues|
      ensures ReassignOne(before, last, agent).queues[p] == GivenBack(s.active, ids, agent, p) + s.queues[p]
    {
    }
  }

  lemma {:induction false} ReassignGivesBack(s: Sched, ids: seq<Id>, agent: Id)
    requires NoDup(ids) && (forall id :: id in ids ==> id in s.active.vals) && ActiveOk(s.active, |s.queues|)
    ensures Departing(s, ids, agent, Reassign(s, ids, agent))
  {
    if ids != [] {
      var init, last := ids[..|ids| - 1], ids[|ids| - 1];
      assert ids == init + [last];
      ReassignGivesBack(s, init, agent);
      DepartNext(s, init, last, agent, Reassign(s, init, agent));
    }
  }

  /**
   unregisterAgent gives back exactly the agent's unstarted tasks, pending, to the fronts of their queues; every
   other task stays as it is, and every other agent.
   */
  lemma UnregisterGivesBack(s: Sched, agent: Id)
    requires ActiveOk(s.active, |s.queues|) && s.agents.Has(agent)
    ensures var after := UnregisterStep(s, agent).0;
      && |after.queues| == |s.queues|
      && (forall p :: 0 <= p < |s.queues| ==>
        after.queues[p] == GivenBack(s.active, s.active.keys, agent, p) + s.queues[p])
      && (forall id :: id in after.active.vals <==> id in s.active.vals && !Unstarted(s.active.vals[id], agent))
      && (forall id :: id in after.active.vals ==> after.active.vals[id] == s.active.vals[id])
      && after.agents == s.agents.Delete(agent) && after.ended == s.ended
  {
    ReassignGivesBack(s, s.active.keys, agent);
    ReassignLeavesHistory(s, s.active.keys, agent);
  }

  // ---------- Nobody is left idle ----------

  /** What was assigned went to agents below their maximum. */
  ghost predicate GivenToFree(agents: JsMap<Id, Agent>, taken: seq<Assignment>) {
    forall i :: 0 <= i < |taken| ==>
      var a := taken[i].agent;
      a.id in agents.vals && agents.vals[a.id] == a && a.currentLoad < a.maxConcurrent && Capable(taken[i].task, a)
  }

  ghost predicate GotNothing(taken: seq<Assignment>, id: Id) {
    forall i :: 0 <= i < |taken| ==> taken[i].agent.id != id
  }

  /** No agent below its maximum that was given nothing could take the first task of any queue. */
  ghost predicate NoneIdle(agents: JsMap<Id, Agent>, taken: seq<Assignment>, queues: seq<seq<Task>>) {
    forall p, id | 0 <= p < |queues| && queues[p] != [] && id in agents.vals
      && agents.vals[id].currentLoad < agents.vals[id].maxConcurrent && GotNothing(taken, id) ::
      !Capable(queues[p][0], agents.vals[id])
  }

  lemma PassLeavesNoneIdle(s: Sched) returns (taken: seq<Assignment>)
    requires |s.queues| == PRIORITIES && AgentsOk(s.agents) && s.isRunning
    ensures PassStep(s).log == s.log + TasksOf(taken)
    ensures GivenToFree(s.agents, taken) && NoneIdle(s.agents, taken, PassStep(s).queues)
  {
    PassIsWorkConserving(s);
    taken := Flatten(TakenBy(s));
    forall id | GotNothing(taken, id) ensures id !in AgentIds(taken) {
    }
  }

  /**
   After each accepted request, each end of an active task and each tick of a running scheduler: no agent below
   its maximum that was given nothing just now could take the first task of any queue.
   */
  lemma NobodyLeftIdle(maxQueueSize: int, s: Sched, op: Op) returns (taken: seq<Assignment>)
    requires |s.queues| == PRIORITIES && AgentsOk(s.agents) && s.isRunning
    requires match op
      case Submit(r) => SubmitStep(s, maxQueueSize, r).1.Accepted?
      case End(id, state) => state in {COMPLETED, FAILED, TIMEOUT} && s.active.Has(id)
      case Tick => true
      case _ => false
    ensures var after := Apply(maxQueueSize, s, op);
      && after.log == s.log + TasksOf(taken)
      && GivenToFree(after.agents, taken) && NoneIdle(after.agents, taken, after.queues)
  {
    Loss.ApplyIsPrepareThenPass(maxQueueSize, s, op);
    taken := PassLeavesNoneIdle(Loss.Prepare(maxQueueSize, s, op));
  }
}
