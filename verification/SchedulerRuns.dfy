/**
 src/agents/scheduler.js over whole runs: what a pass does, and that with fresh ids no task is lost or
 doubled and the counters add up.
 */
module SchedulerRuns {
  import opened JsCollections
  import opened Dispatch
  import opened DispatchOrder
  import opened Scheduler
  import opened TaskCounts

  datatype Op =
    | Submit(request: Request)
    | Cancel(id: Id)
    | Start(id: Id, agent: Id)
    | End(id: Id, state: TaskState)
    | Register(id: Id, capabilities: set<string>, maxConcurrent: int)
    | Unregister(id: Id)
    | Tick
    | Run
    | Stop
    | ClearHistory

  function Apply(maxQueueSize: int, s: Sched, op: Op): (r: Sched)
    requires |s.queues| == PRIORITIES
    ensures |r.queues| == PRIORITIES
  {
    match op
    case Submit(r) => SubmitStep(s, maxQueueSize, r).0
    case Cancel(id) => CancelStep(s, id).0
    case Start(id, agent) => StartStep(s, id, agent)
    case End(id, state) => if IsEnd(state) then EndStep(s, id, state) else s
    case Register(id, caps, max) => RegisterStep(s, id, caps, max)
    case Unregister(id) => UnregisterStep(s, id).0
    case Tick => PassStep(s)
    case Run => s.(isRunning := true)
    case Stop => s.(isRunning := false)
    case ClearHistory => s.(history := [])
  }

  function After(maxQueueSize: int, ops: seq<Op>): (r: Sched)
    ensures |r.queues| == PRIORITIES
  {
    if ops == [] then INITIAL else Apply(maxQueueSize, After(maxQueueSize, ops[..|ops| - 1]), ops[|ops| - 1])
  }

  // ---------- The invariant ----------

  /** Every serial handed out is in exactly one place, once. */
  ghost predicate Partitioned(queues: seq<seq<Task>>, active: Active, ended: seq<Task>, submitted: nat) {
    forall n: nat ::
      Queued(queues, BySerial(n)) + Running(active, BySerial(n)) + Count(ended, BySerial(n)) == if n < submitted then 1
      else 0
  }

  ghost predicate LiveOnce(queues: seq<seq<Task>>, active: Active) {
    forall id: Id :: Queued(queues, ById(id)) + Running(active, ById(id)) <= 1
  }

  function EndedAs(ended: seq<Task>, state: TaskState): nat {
    if ended == [] then 0
    else EndedAs(ended[..|ended| - 1], state) + if ended[|ended| - 1].state == state then 1 else 0
  }

  /** The counters say how the ended tasks ended, and none ended otherwise. */
  ghost predicate Tallied(ended: seq<Task>, c: Counts) {
    && EndedAs(ended, COMPLETED) == c.completed && EndedAs(ended, FAILED) == c.failed
    && EndedAs(ended, CANCELLED) == c.cancelled && EndedAs(ended, TIMEOUT) == c.timedOut
    && |ended| == c.completed + c.failed + c.cancelled + c.timedOut
  }

  ghost predicate AgentsOk(agents: JsMap<Id, Agent>) { forall k :: k in agents.vals ==> agents.vals[k].id == k }

  ghost predicate Sorted(queues: seq<seq<Task>>) {
    forall p, i :: 0 <= p < |queues| && 0 <= i < |queues[p]| ==> queues[p][i].priority == p
  }

  ghost predicate Conserved(s: Sched) {
    && |s.queues| == PRIORITIES
    && Partitioned(s.queues, s.active, s.ended, s.counts.submitted) && LiveOnce(s.queues, s.active)
    && s.counts.submitted == Total(s.queues) + s.active.Size() + |s.ended|
    && Tallied(s.ended, s.counts) && |s.log| == s.counts.scheduled
    && AgentsOk(s.agents) && ActiveOk(s.active, PRIORITIES) && Sorted(s.queues)
  }

  // ---------- A pass ----------

  lemma {:induction false} FreeOfDistinct(list: seq<Agent>)
    requires DistinctIds(list)
    ensures DistinctIds(FreeOf(list)) && forall a :: a in FreeOf(list) <==> a in list && Free(a)
  {
    if list != [] {
      var init := list[..|list| - 1];
      FreeOfDistinct(init);
      assert list == init + [list[|list| - 1]];
      forall a | a in init ensures a.id != list[|list| - 1].id {
        var i :| 0 <= i < |init| && init[i] == a;
        assert list[i] == a;
      }
    }
  }

  lemma AvailableDistinct(agents: JsMap<Id, Agent>)
    requires AgentsOk(agents)
    ensures DistinctIds(Available(agents))
    ensures forall a :: a in Available(agents) ==> a.id in agents.vals && agents.vals[a.id] == a && Free(a)
  {
    var list := ValuesOf(agents);
    forall i | 0 <= i < |list|
      ensures agents.keys[i] in agents.vals && list[i] == agents.vals[agents.keys[i]] && list[i].id == agents.keys[i]
    {
      assert agents.keys[i] in agents.keys;
    }
    FreeOfDistinct(list);
  }

  lemma {:induction false} CountTwice(tasks: seq<Task>, i: nat, j: nat, x: Label)
    requires i < j < |tasks| && Is(tasks[i], x) && Is(tasks[j], x)
    ensures Count(tasks, x) >= 2
  {
    var init := tasks[..|tasks| - 1];
    if j < |init| {
      CountTwice(init, i, j, x);
    } else {
      CountHas(init, i, x);
    }
  }

  lemma FreshFromCounts(active: Active, taken: seq<Assignment>, priorities: nat)
    requires ActiveOk(active, priorities)
    requires forall id: Id :: Count(TasksOf(taken), ById(id)) + Running(active, ById(id)) <= 1
    ensures FreshIds(active, taken)
  {
    var tasks := TasksOf(taken);
    forall i | 0 <= i < |taken| ensures taken[i].task.id !in active.vals {
      var x := ById(taken[i].task.id);
      AmongIds(active.keys, active.vals, taken[i].task.id);
      assert Is(tasks[i], x);
      CountHas(tasks, i, x);
    }
    forall i, j | 0 <= i < j < |taken| ensures taken[i].task.id != taken[j].task.id {
      if taken[i].task.id == taken[j].task.id {
        var x := ById(taken[i].task.id);
        CountTwice(tasks, i, j, x);
        assert false;
      }
    }
  }

  /** The tasks of a pass are fresh as long as every id is live once. */
  lemma PassIsFresh(queues: seq<seq<Task>>, active: Active, available: seq<Agent>, rr: nat)
    requires LiveOnce(queues, active) && ActiveOk(active, |queues|) && DistinctIds(available)
    ensures FreshIds(active, Flatten(WorkQueues(queues, |queues|, available, rr).taken))
  {
    var r := WorkQueues(queues, |queues|, available, rr);
    forall id: Id ensures Count(TasksOf(Flatten(r.taken)), ById(id)) + Running(active, ById(id)) <= 1 {
      RoundCount(queues, |queues|, available, rr, ById(id));
      assert Queued(queues, ById(id)) + Running(active, ById(id)) <= 1;
    }
    FreshFromCounts(active, Flatten(r.taken), |queues|);
  }

  lemma PassMoves(queues: seq<seq<Task>>, active: Active, available: seq<Agent>, rr: nat, x: Label)
    requires LiveOnce(queues, active) && ActiveOk(active, |queues|) && DistinctIds(available)
    ensures var r := WorkQueues(queues, |queues|, available, rr);
      var after := ScheduleAll(active, Flatten(r.taken));
      && Queued(r.queues, x) + Running(after, x) == Queued(queues, x) + Running(active, x)
      && Total(r.queues) + after.Size() == Total(queues) + active.Size()
  {
    var r := WorkQueues(queues, |queues|, available, rr);
    PassIsFresh(queues, active, available, rr);
    RoundCount(queues, |queues|, available, rr, x);
    ScheduledCount(active, Flatten(r.taken), x);
  }

  /** Active tasks are filed under their ids, and have a known priority. */
  ghost predicate ActiveOk(active: Active, priorities: nat) {
    forall k :: k in active.vals ==> active.vals[k].id == k && active.vals[k].priority < priorities
  }

  lemma SetKeepsActive(active: Active, t: Task, priorities: nat)
    requires ActiveOk(active, priorities) && t.priority < priorities
    ensures ActiveOk(active.Set(t.id, t), priorities)
  {
  }

  lemma {:induction false} ScheduledOk(active: Active, taken: seq<Assignment>, priorities: nat)
    requires ActiveOk(active, priorities)
    requires forall i :: 0 <= i < |taken| ==> taken[i].task.priority < priorities
    ensures ActiveOk(ScheduleAll(active, taken), priorities)
  {
    if taken != [] {
      ScheduledOk(active, taken[..|taken| - 1], priorities);
      SetKeepsActive(ScheduleAll(active, taken[..|taken| - 1]), Placed(taken[|taken| - 1]), priorities);
    }
  }

  lemma {:induction false} FlattenedBelow(taken: seq<seq<Assignment>>, priorities: nat)
    requires forall p, i :: 0 <= p < |taken| && 0 <= i < |taken[p]| ==> taken[p][i].task.priority < priorities
    ensures forall i :: 0 <= i < |Flatten(taken)| ==> Flatten(taken)[i].task.priority < priorities
  {
    if taken != [] {
      var init := taken[..|taken| - 1];
      assert forall p, i :: 0 <= p < |init| && 0 <= i < |init[p]| ==> init[p][i] == taken[p][i];
      FlattenedBelow(init, priorities);
    }
  }

  lemma TakenSorted(queues: seq<seq<Task>>, available: seq<Agent>, r: Round, p: nat, i: nat)
    requires RoundOk(queues, |queues|, available, r) && p < |queues| && i < |r.taken[p]|
    requires Sorted(queues)
    ensures r.taken[p][i].task.priority == p
  {
    assert queues[p][i] == TasksOf(r.taken[p])[i];
  }

  lemma PassKeepsSorted(queues: seq<seq<Task>>, active: Active, available: seq<Agent>, rr: nat)
    requires DistinctIds(available) && Sorted(queues) && ActiveOk(active, |queues|)
    ensures var r := WorkQueues(queues, |queues|, available, rr);
      Sorted(r.queues) && ActiveOk(ScheduleAll(active, Flatten(r.taken)), |queues|)
  {
    var r := WorkQueues(queues, |queues|, available, rr);
    PassIsSound(queues, |queues|, available, rr);
    forall p, i | 0 <= p < |r.taken| && 0 <= i < |r.taken[p]| ensures r.taken[p][i].task.priority < |queues| {
      TakenSorted(queues, available, r, p, i);
    }
    FlattenedBelow(r.taken, |queues|);
    ScheduledOk(active, Flatten(r.taken), |queues|);
    forall p, i | 0 <= p < |r.queues| && 0 <= i < |r.queues[p]| ensures r.queues[p][i].priority == p {
      assert r.queues[p][i] == queues[p][|r.taken[p]| + i];
    }
  }

  lemma PassKeepsConserved(s: Sched)
    requires Conserved(s)
    ensures Conserved(PassStep(s))
  {
    if s.isRunning {
      var available := Available(s.agents);
      AvailableDistinct(s.agents);
      forall x ensures var r := WorkQueues(s.queues, |s.queues|, available, s.rr);
        Queued(r.queues, x) + Running(ScheduleAll(s.active, Flatten(r.taken)), x)
          == Queued(s.queues, x) + Running(s.active, x)
      {
        PassMoves(s.queues, s.active, available, s.rr, x);
      }
      PassMoves(s.queues, s.active, available, s.rr, BySerial(0));
      PassKeepsSorted(s.queues, s.active, available, s.rr);
    }
  }

  lemma FreeIsAvailable(agents: JsMap<Id, Agent>, id: Id)
    requires AgentsOk(agents) && id in agents.vals && Free(agents.vals[id])
    ensures agents.vals[id] in Available(agents)
  {
    var list := ValuesOf(agents);
    assert id in agents.keys;
    var i :| 0 <= i < |agents.keys| && agents.keys[i] == id;
    assert list[i] == agents.vals[id];
    forall i | 0 <= i < |list|
      ensures agents.keys[i] in agents.vals && list[i] == agents.vals[agents.keys[i]] && list[i].id == agents.keys[i]
    {
      assert agents.keys[i] in agents.keys;
    }
    FreeOfDistinct(list);
  }

  /** The assignments a pass makes in this state, queue by queue. */
  function TakenBy(s: Sched): seq<seq<Assignment>>
    requires |s.queues| == PRIORITIES
  {
    WorkQueues(s.queues, PRIORITIES, Available(s.agents), s.rr).taken
  }

  /** A pass that assigns `taken`, queue by queue, and leaves `after`. */
  ghost predicate PassEffect(s: Sched, taken: seq<seq<Assignment>>, after: seq<seq<Task>>) {
    && |taken| == |after| == |s.queues|
    && (forall p :: 0 <= p < |s.queues| ==> s.queues[p] == TasksOf(taken[p]) + after[p])
    && (forall i :: 0 <= i < |Flatten(taken)| ==>
         var a := Flatten(taken)[i];
         a.agent.id in s.agents.vals && s.agents.vals[a.agent.id] == a.agent && Free(a.agent)
           && Capable(a.task, a.agent))
    && (forall i, j :: 0 <= i < j < |Flatten(taken)| ==> Flatten(taken)[i].agent.id != Flatten(taken)[j].agent.id)
  }

  /** No free agent without a new task could take the first task of any queue. */
  ghost predicate NobodyLeftFor(agents: JsMap<Id, Agent>, busy: set<Id>, queues: seq<seq<Task>>) {
    forall id, p :: (id in agents.vals && Free(agents.vals[id]) && id !in busy && 0 <= p < |queues| && queues[p] != [])
      ==> !Capable(queues[p][0], agents.vals[id])
  }

  /**
   A pass takes a prefix of each queue, gives each task to a different registered, free and capable
   agent, and stops only when no free agent without a task could take the first task of any queue. What a less
   urgent queue got could not have served the task that a more urgent one still waits with.
   */
  lemma PassIsWorkConserving(s: Sched)
    requires |s.queues| == PRIORITIES && AgentsOk(s.agents) && s.isRunning
    ensures var taken, after := TakenBy(s), PassStep(s).queues;
      && PassEffect(s, taken, after) && PassStep(s).log == s.log + TasksOf(Flatten(taken))
      && NobodyLeftFor(s.agents, AgentIds(Flatten(taken)), after) && UrgentFirst(taken, after)
  {
    var available := Available(s.agents);
    PassIsUrgentFirst(s.queues, available, s.rr);
    AvailableDistinct(s.agents);
    PassIsSound(s.queues, PRIORITIES, available, s.rr);
    var r := WorkQueues(s.queues, PRIORITIES, available, s.rr);
    forall id, p | id in s.agents.vals && Free(s.agents.vals[id]) && id !in AgentIds(Flatten(r.taken))
      && 0 <= p < |r.queues| && r.queues[p] != []
      ensures !Capable(r.queues[p][0], s.agents.vals[id])
    {
      FreeIsAvailable(s.agents, id);
      assert s.agents.vals[id] in r.available;
      assert Stuck(r.queues[p], r.available);
    }
  }

  // ---------- Submitting and cancelling ----------

  predicate IsLive(s: Sched, id: Id) { s.active.Has(id) || QueueWith(s.queues, 0, id) < |s.queues| }

  lemma {:induction false} NotIn(queue: seq<Task>, id: Id)
    requires IndexOf(queue, id) == |queue|
    ensures Count(queue, ById(id)) == 0
  {
    if Count(queue, ById(id)) > 0 {
      var i := CountFinds(queue, ById(id));
    }
  }

  lemma {:induction false} NotQueued(queues: seq<seq<Task>>, p: nat, id: Id)
    requires p <= |queues| && QueueWith(queues, p, id) == |queues|
    ensures forall q :: p <= q < |queues| ==> IndexOf(queues[q], id) == |queues[q]|
    decreases |queues| - p
  {
    if p < |queues| {
      NotQueued(queues, p + 1, id);
    }
  }

  lemma {:induction false} NoneQueued(queues: seq<seq<Task>>, id: Id)
    requires forall q :: 0 <= q < |queues| ==> IndexOf(queues[q], id) == |queues[q]|
    ensures Queued(queues, ById(id)) == 0
  {
    if queues != [] {
      var init := queues[..|queues| - 1];
      assert forall q :: 0 <= q < |init| ==> init[q] == queues[q];
      NoneQueued(init, id);
      NotIn(queues[|queues| - 1], id);
    }
  }

  lemma NotLive(s: Sched, id: Id)
    requires ActiveOk(s.active, PRIORITIES) && !IsLive(s, id)
    ensures Queued(s.queues, ById(id)) + Running(s.active, ById(id)) == 0
  {
    NotQueued(s.queues, 0, id);
    NoneQueued(s.queues, id);
    AmongIds(s.active.keys, s.active.vals, id);
  }

  lemma EnqueueMoves(queues: seq<seq<Task>>, t: Task, x: Label)
    requires t.priority < |queues|
    ensures Queued(queues[t.priority := queues[t.priority] + [t]], x) == Queued(queues, x) + One(t, x)
    ensures Total(queues[t.priority := queues[t.priority] + [t]]) == Total(queues) + 1
  {
    QueuedUpdate(queues, t.priority, queues[t.priority] + [t], x);
    TotalUpdate(queues, t.priority, queues[t.priority] + [t]);
    CountConcat(queues[t.priority], [t], x);
    CountSingle(t, x);
  }

  lemma EnqueueKeepsConserved(s: Sched, r: Request)
    requires Conserved(s) && 0 <= r.priority < PRIORITIES && !IsLive(s, r.id)
    ensures Conserved(s.(queues := s.queues[r.priority := s.queues[r.priority] + [NewTask(r, s.counts.submitted)]],
                         counts := s.counts.(submitted := s.counts.submitted + 1)))
  {
    var t := NewTask(r, s.counts.submitted);
    var queues := s.queues[t.priority := s.queues[t.priority] + [t]];
    forall x ensures Queued(queues, x) == Queued(s.queues, x) + One(t, x) {
      EnqueueMoves(s.queues, t, x);
    }
    EnqueueMoves(s.queues, t, BySerial(0));
    NotLive(s, r.id);
    assert LiveOnce(queues, s.active) by {
      forall id: Id ensures Queued(queues, ById(id)) + Running(s.active, ById(id)) <= 1 {
        assert Queued(s.queues, ById(id)) + Running(s.active, ById(id)) <= 1;
      }
    }
  }

  lemma SubmitKeepsConserved(s: Sched, maxQueueSize: int, r: Request)
    requires Conserved(s) && !IsLive(s, r.id)
    ensures Conserved(SubmitStep(s, maxQueueSize, r).0)
  {
    if 0 <= r.priority < PRIORITIES {
      EnqueueKeepsConserved(s, r);
      PassKeepsConserved(s.(queues := s.queues[r.priority := s.queues[r.priority] + [NewTask(r, s.counts.submitted)]],
                            counts := s.counts.(submitted := s.counts.submitted + 1)));
    }
  }

  lemma CancelKeepsConserved(s: Sched, id: Id)
    requires Conserved(s)
    ensures Conserved(CancelStep(s, id).0)
  {
    var p := QueueWith(s.queues, 0, id);
    if !s.active.Has(id) && p < |s.queues| {
      var i := IndexOf(s.queues[p], id);
      var t := s.queues[p][i].(state := CANCELLED);
      var q := RemoveAt(s.queues[p], i);
      forall x
        ensures Queued(s.queues[p := q], x) + One(t, x) == Queued(s.queues, x)
          && Count(s.ended + [t], x) == Count(s.ended, x) + One(t, x)
      {
        QueuedUpdate(s.queues, p, q, x);
        CountRemoveAt(s.queues[p], i, x);
        CountConcat(s.ended, [t], x);
        CountSingle(t, x);
      }
      TotalUpdate(s.queues, p, q);
      assert (s.ended + [t])[..|s.ended|] == s.ended;
      LiveOnceFewer(s.queues, s.active, s.queues[p := q], s.active);
    }
  }

  lemma LiveOnceFewer(queues: seq<seq<Task>>, active: Active, queues': seq<seq<Task>>, active': Active)
    requires LiveOnce(queues, active)
    requires forall x: Label :: Queued(queues', x) + Running(active', x) <= Queued(queues, x) + Running(active, x)
    ensures LiveOnce(queues', active')
  {
    forall id: Id ensures Queued(queues', ById(id)) + Running(active', ById(id)) <= 1 {
      assert Queued(queues, ById(id)) + Running(active, ById(id)) <= 1;
    }
  }

  // ---------- Marks ----------

  lemma StartKeepsConserved(s: Sched, id: Id, agent: Id)
    requires Conserved(s)
    ensures Conserved(StartStep(s, id, agent))
  {
    if s.active.Has(id) {
      var t := s.active.vals[id].(state := RUNNING, assignedAgent := Some(agent));
      forall x ensures Running(s.active.Set(id, t), x) == Running(s.active, x) {
        RunningChanged(s.active, id, t, x);
      }
      SetKeepsActive(s.active, t, PRIORITIES);
      LiveOnceFewer(s.queues, s.active, s.queues, s.active.Set(id, t));
    }
  }

  lemma RetireKeepsConserved(s: Sched, id: Id, state: TaskState)
    requires Conserved(s) && s.active.Has(id) && IsEnd(state)
    ensures Conserved(RetireStep(s, id, state))
  {
    var t := s.active.vals[id].(state := state);
    forall x
      ensures Running(s.active.Delete(id), x) + One(t, x) == Running(s.active, x)
        && Count(s.ended + [t], x) == Count(s.ended, x) + One(t, x)
    {
      RunningDelete(s.active, id, x);
      CountConcat(s.ended, [t], x);
      CountSingle(t, x);
    }
    assert (s.ended + [t])[..|s.ended|] == s.ended;
    LiveOnceFewer(s.queues, s.active, s.queues, s.active.Delete(id));
  }

  // ---------- Reassignment ----------

  lemma RequeueMoves(queues: seq<seq<Task>>, t: Task, x: Label)
    requires t.priority < |queues|
    ensures Queued(queues[t.priority := [t] + queues[t.priority]], x) == Queued(queues, x) + One(t, x)
    ensures Total(queues[t.priority := [t] + queues[t.priority]]) == Total(queues) + 1
  {
    QueuedUpdate(queues, t.priority, [t] + queues[t.priority], x);
    TotalUpdate(queues, t.priority, [t] + queues[t.priority]);
    CountConcat([t], queues[t.priority], x);
    CountSingle(t, x);
  }

  /** Moving an active task back to the front of its queue loses and doubles nothing. */
  lemma RequeueBalances(queues: seq<seq<Task>>, active: Active, id: Id, t: Task)
    requires ActiveOk(active, |queues|) && Sorted(queues) && LiveOnce(queues, active)
    requires id in active.vals && t == active.vals[id].(state := PENDING, assignedAgent := None)
    ensures t.priority < |queues|
    ensures var queues' := queues[t.priority := [t] + queues[t.priority]];
      && Sorted(queues') && LiveOnce(queues', active.Delete(id))
      && forall x: Label :: Queued(queues', x) + Running(active.Delete(id), x) == Queued(queues, x) + Running(active, x)
  {
    var queues' := queues[t.priority := [t] + queues[t.priority]];
    forall x ensures Queued(queues', x) + Running(active.Delete(id), x) == Queued(queues, x) + Running(active, x) {
      RequeueMoves(queues, t, x);
      RunningDelete(active, id, x);
    }
    LiveOnceFewer(queues, active, queues', active.Delete(id));
  }

  lemma ReassignOneKeepsConserved(s: Sched, id: Id, agent: Id)
    requires Conserved(s)
    ensures Conserved(ReassignOne(s, id, agent))
  {
    if s.active.Has(id) && s.active.vals[id].assignedAgent == Some(agent) && s.active.vals[id].state == SCHEDULED {
      var t := s.active.vals[id].(state := PENDING, assignedAgent := None);
      RequeueBalances(s.queues, s.active, id, t);
      RequeueMoves(s.queues, t, BySerial(0));
    }
  }

  lemma {:induction false} ReassignKeepsConserved(s: Sched, ids: seq<Id>, agent: Id)
    requires Conserved(s)
    ensures Conserved(Reassign(s, ids, agent))
  {
    if ids != [] {
      ReassignKeepsConserved(s, ids[..|ids| - 1], agent);
      ReassignOneKeepsConserved(Reassign(s, ids[..|ids| - 1], agent), ids[|ids| - 1], agent);
    }
  }

  // ---------- Whole runs ----------

  /** A submitted id is not that of a task that is still waiting or active. */
  predicate FreshOp(s: Sched, op: Op) { op.Submit? ==> !IsLive(s, op.request.id) }

  ghost predicate FreshRun(maxQueueSize: int, ops: seq<Op>) {
    ops == [] || (FreshRun(maxQueueSize, ops[..|ops| - 1])
      && FreshOp(After(maxQueueSize, ops[..|ops| - 1]), ops[|ops| - 1]))
  }

  lemma ApplyKeepsConserved(maxQueueSize: int, s: Sched, op: Op)
    requires Conserved(s) && FreshOp(s, op)
    ensures Conserved(Apply(maxQueueSize, s, op))
  {
    match op
    case Submit(r) => SubmitKeepsConserved(s, maxQueueSize, r);
    case Cancel(id) => CancelKeepsConserved(s, id);
    case Start(id, agent) => StartKeepsConserved(s, id, agent);
    case End(id, state) =>
      if IsEnd(state) && s.active.Has(id) {
        RetireKeepsConserved(s, id, state);
        PassKeepsConserved(RetireStep(s, id, state));
      }
    case Register(id, caps, max) =>
    case Unregister(id) => ReassignKeepsConserved(s, s.active.keys, id);
    case Tick => PassKeepsConserved(s);
    case Run =>
    case Stop =>
    case ClearHistory =>
  }

  lemma {:induction false} NothingQueued(queues: seq<seq<Task>>, x: Label)
    requires forall p :: 0 <= p < |queues| ==> queues[p] == []
    ensures Queued(queues, x) == 0 && Total(queues) == 0
  {
    if queues != [] {
      NothingQueued(queues[..|queues| - 1], x);
    }
  }

  lemma EmptyIsConserved(s: Sched)
    requires |s.queues| == PRIORITIES && (forall p :: 0 <= p < |s.queues| ==> s.queues[p] == [])
    requires s.active == EmptyMap() && s.agents == EmptyMap() && s.ended == [] && s.log == []
    requires s.counts == Counts(0, 0, 0, 0, 0, 0)
    ensures Conserved(s)
  {
    forall x ensures Queued(s.queues, x) == 0 && Total(s.queues) == 0 {
      NothingQueued(s.queues, x);
    }
    assert Queued(s.queues, BySerial(0)) == 0;
  }

  /** No task is lost or doubled, and the counters add up, after every run with fresh ids. */
  lemma {:induction false} RunConserves(maxQueueSize: int, ops: seq<Op>)
    requires FreshRun(maxQueueSize, ops)
    ensures Conserved(After(maxQueueSize, ops))
  {
    if ops == [] {
      EmptyIsConserved(INITIAL);
    } else {
      RunConserves(maxQueueSize, ops[..|ops| - 1]);
      ApplyKeepsConserved(maxQueueSize, After(maxQueueSize, ops[..|ops| - 1]), ops[|ops| - 1]);
    }
  }

  ghost predicate InQueue(s: Sched, n: nat) {
    exists p, i :: 0 <= p < |s.queues| && 0 <= i < |s.queues[p]| && s.queues[p][i].serial == n
  }

  ghost predicate InActive(s: Sched, n: nat) { exists k :: k in s.active.vals && s.active.vals[k].serial == n }

  ghost predicate HasEnded(s: Sched, n: nat) { exists i :: 0 <= i < |s.ended| && s.ended[i].serial == n }

  lemma QueuedMeans(s: Sched, n: nat)
    ensures Queued(s.queues, BySerial(n)) > 0 <==> InQueue(s, n)
  {
    if Queued(s.queues, BySerial(n)) > 0 {
      var p, i := QueuedFinds(s.queues, BySerial(n));
    }
    if InQueue(s, n) {
      var p, i :| 0 <= p < |s.queues| && 0 <= i < |s.queues[p]| && s.queues[p][i].serial == n;
      QueuedHas(s.queues, p, i, BySerial(n));
    }
  }

  lemma {:induction false} AmongMeans(keys: seq<Id>, vals: map<Id, Task>, n: nat)
    requires forall k :: k in keys ==> k in vals
    ensures Among(keys, vals, BySerial(n)) > 0 <==> exists k :: k in keys && vals[k].serial == n
  {
    if keys != [] {
      AmongMeans(keys[1..], vals, n);
      assert keys == [keys[0]] + keys[1..];
    }
  }

  lemma EndedMeans(s: Sched, n: nat)
    ensures Count(s.ended, BySerial(n)) > 0 <==> HasEnded(s, n)
  {
    if Count(s.ended, BySerial(n)) > 0 {
      var i := CountFinds(s.ended, BySerial(n));
    }
    if HasEnded(s, n) {
      var i :| 0 <= i < |s.ended| && s.ended[i].serial == n;
      CountHas(s.ended, i, BySerial(n));
    }
  }

  /** A submitted task is waiting, active or ended: one of the three, and no more. Nothing else is anywhere. */
  ghost predicate InOnePlace(s: Sched, n: nat) {
    if n < s.counts.submitted then
      || (InQueue(s, n) && !InActive(s, n) && !HasEnded(s, n))
      || (!InQueue(s, n) && InActive(s, n) && !HasEnded(s, n))
      || (!InQueue(s, n) && !InActive(s, n) && HasEnded(s, n))
    else !InQueue(s, n) && !InActive(s, n) && !HasEnded(s, n)
  }

  /**
   After every run with fresh ids each submitted task is in one
   place, and the counters add up to the tasks submitted.
   */
  lemma OnePlaceEach(maxQueueSize: int, ops: seq<Op>, s: Sched, n: nat)
    requires FreshRun(maxQueueSize, ops) && s == After(maxQueueSize, ops)
    ensures InOnePlace(s, n)
    ensures s.counts.submitted
      == Total(s.queues) + s.active.Size() + s.counts.completed + s.counts.failed + s.counts.cancelled
        + s.counts.timedOut
  {
    RunConserves(maxQueueSize, ops);
    ConservedMeans(s, n);
  }

  lemma ConservedMeans(s: Sched, n: nat)
    requires Conserved(s)
    ensures InOnePlace(s, n)
    ensures s.counts.submitted
      == Total(s.queues) + s.active.Size() + s.counts.completed + s.counts.failed + s.counts.cancelled
        + s.counts.timedOut
  {
    PlacesOfSerial(s, n);
  }

  lemma PlacesOfSerial(s: Sched, n: nat)
    requires Partitioned(s.queues, s.active, s.ended, s.counts.submitted)
    ensures (if InQueue(s, n) then 1 else 0) + (if InActive(s, n) then 1 else 0) + (if HasEnded(s, n) then 1 else 0)
      == if n < s.counts.submitted then 1 else 0
  {
    QueuedMeans(s, n);
    AmongMeans(s.active.keys, s.active.vals, n);
    assert InActive(s, n) <==> Running(s.active, BySerial(n)) > 0;
    EndedMeans(s, n);
  }
}
