/**
 src/agents/scheduler.js, one scheduling pass: which agent a task gets, and what a pass over the
 priority queues leaves behind.
 */
module Dispatch {
  import opened JsCollections

  type Id = string

  datatype Strategy = ROUND_ROBIN | PRIORITY | LOAD_BASED | CAPABILITY_BASED | FIFO

  datatype TaskState = PENDING | SCHEDULED | RUNNING | COMPLETED | FAILED | CANCELLED | TIMEOUT

  /** An empty capability or preferred agent is none. `serial` numbers the tasks in the order of submission. */
  datatype Task = Task(id: Id, serial: nat, priority: nat, strategy: Strategy, requiredCapability: string,
    preferredAgent: Id,
                       state: TaskState, assignedAgent: Option<Id>)

  datatype Agent = Agent(id: Id, capabilities: set<string>, maxConcurrent: int, currentLoad: nat, totalTasks: nat)

  datatype Assignment = Assignment(task: Task, agent: Agent)

  predicate Free(a: Agent) { a.currentLoad < a.maxConcurrent }

  predicate Capable(task: Task, a: Agent) { task.requiredCapability == "" || task.requiredCapability in a.capabilities }

  // ---------- Selecting an agent ----------

  function Candidates(task: Task, available: seq<Agent>): (r: seq<Agent>)
    ensures forall a :: a in r <==> a in available && Capable(task, a)
  {
    if available == [] then []
    else
      var rest := Candidates(task, available[..|available| - 1]);
      if Capable(task, available[|available| - 1]) then rest + [available[|available| - 1]] else rest
  }

  /** Array.prototype.find by id. */
  function FindAgent(list: seq<Agent>, id: Id): (r: Option<Agent>)
    ensures r.Some? ==> r.value in list && r.value.id == id
    ensures r.None? ==> forall a :: a in list ==> a.id != id
  {
    if list == [] then None else if list[0].id == id then Some(list[0]) else FindAgent(list[1..], id)
  }

  function Load(a: Agent): real {
    if a.maxConcurrent == 0 then 0.0 else a.currentLoad as real / a.maxConcurrent as real
  }

  /** The reduction over all but the first n candidates, starting from candidate `best`. */
  function LeastLoaded(list: seq<Agent>, n: nat): (best: nat)
    requires 0 < n <= |list|
    ensures best < n
    ensures forall i :: 0 <= i < n ==> Load(list[best]) <= Load(list[i])
    ensures forall i :: 0 <= i < best ==> Load(list[best]) < Load(list[i])
  {
    if n == 1 then 0
    else
      var best := LeastLoaded(list, n - 1);
      if Load(list[n - 1]) < Load(list[best]) then n - 1 else best
  }

  /** The remainder of a division of natural numbers. */
  function Rem(a: nat, m: nat): (r: nat)
    requires m > 0
    ensures r < m
  {
    if a < m then a else Rem(a - m, m)
  }

  function ByStrategy(task: Task, candidates: seq<Agent>, rr: nat): (Agent, nat)
    requires candidates != []
  {
    match task.strategy
    case ROUND_ROBIN => (candidates[Rem(rr, |candidates|)], Rem(rr + 1, |candidates|))
    case LOAD_BASED => (candidates[LeastLoaded(candidates, |candidates|)], rr)
    case _ => (candidates[0], rr)
  }

  /** The agent for a task, and the next round-robin position. */
  function Select(task: Task, available: seq<Agent>, rr: nat): (Option<Agent>, nat) {
    var candidates := Candidates(task, available);
    var preferred := if task.preferredAgent == "" then None else FindAgent(candidates, task.preferredAgent);
    if preferred.Some? then (preferred, rr)
    else if candidates == [] then (None, rr)
    else
      var (a, rr) := ByStrategy(task, candidates, rr);
      (Some(a), rr)
  }

  /** A capable agent is found exactly when there is one; the preferred one is taken if it is among them. */
  lemma SelectFinds(task: Task, available: seq<Agent>, rr: nat)
    ensures var (a, _) := Select(task, available, rr);
      && (a.Some? <==> exists c :: c in available && Capable(task, c))
      && (a.Some? ==> a.value in available && Capable(task, a.value))
      && ((task.preferredAgent != "" && exists c :: c in available && Capable(task, c) && c.id == task.preferredAgent)
        ==> a.Some? && a.value.id == task.preferredAgent)
  {
    var candidates := Candidates(task, available);
    if candidates != [] {
      assert candidates[0] in available && Capable(task, candidates[0]);
      var (a, _) := ByStrategy(task, candidates, rr);
      assert a in candidates;
    }
  }

  /** With LOAD_BASED and no preference, the first of the least loaded capable agents. */
  lemma SelectLeastLoaded(task: Task, available: seq<Agent>, rr: nat)
    requires task.strategy == LOAD_BASED && task.preferredAgent == ""
    ensures var (a, _) := Select(task, available, rr);
      a.Some? ==> forall c :: c in available && Capable(task, c) ==> Load(a.value) <= Load(c)
  {
    var candidates := Candidates(task, available);
    if candidates != [] {
      var best := LeastLoaded(candidates, |candidates|);
      forall c | c in available && Capable(task, c) ensures Load(candidates[best]) <= Load(c) {
        assert c in candidates;
        var i :| 0 <= i < |candidates| && candidates[i] == c;
      }
    }
  }

  function RoundRobinAfter(task: Task, candidates: seq<Agent>, rr: nat, n: nat): nat
    requires candidates != []
  {
    if n == 0 then rr else ByStrategy(task, candidates, RoundRobinAfter(task, candidates, rr, n - 1)).1
  }

  lemma {:induction false} RemNext(a: nat, m: nat)
    requires m > 0
    ensures Rem(a + 1, m) == if Rem(a, m) + 1 < m then Rem(a, m) + 1 else 0
  {
    if a < m {
      assert Rem(0, m) == 0;
    } else {
      RemNext(a - m, m);
    }
  }

  /** Which candidate the n-th selection from now takes. */
  function RoundRobinPick(task: Task, candidates: seq<Agent>, rr: nat, n: nat): nat
    requires candidates != []
  {
    Rem(RoundRobinAfter(task, candidates, rr, n), |candidates|)
  }

  lemma {:induction false} RoundRobinPosition(task: Task, candidates: seq<Agent>, rr: nat, n: nat)
    requires task.strategy == ROUND_ROBIN && candidates != [] && n <= |candidates|
    ensures var first, m := Rem(rr, |candidates|), |candidates|;
      RoundRobinPick(task, candidates, rr, n) == if first + n < m then first + n else first + n - m
  {
    if n > 0 {
      RoundRobinPosition(task, candidates, rr, n - 1);
      RemNext(RoundRobinAfter(task, candidates, rr, n - 1), |candidates|);
    }
  }

  /**
   As long as the candidates stay the same, round robin takes each of them once before it comes back to one,
   wherever its position was left by other candidates.
   */
  lemma RoundRobinIsFair(task: Task, candidates: seq<Agent>, rr: nat, i: nat, j: nat)
    requires task.strategy == ROUND_ROBIN && i < j < |candidates|
    ensures RoundRobinPick(task, candidates, rr, i) != RoundRobinPick(task, candidates, rr, j)
    ensures RoundRobinPick(task, candidates, rr, |candidates|) == RoundRobinPick(task, candidates, rr, 0)
    ensures ByStrategy(task, candidates, RoundRobinAfter(task, candidates, rr, i)).0
      == candidates[RoundRobinPick(task, candidates, rr, i)]
  {
    RoundRobinPosition(task, candidates, rr, i);
    RoundRobinPosition(task, candidates, rr, j);
    RoundRobinPosition(task, candidates, rr, |candidates|);
  }

  // ---------- One pass ----------

  /** `availableAgents.splice(index, 1)` at the first agent with that id. */
  function DropAgent(list: seq<Agent>, id: Id): seq<Agent> {
    if list == [] then [] else if list[0].id == id then list[1..] else [list[0]] + DropAgent(list[1..], id)
  }

  ghost predicate DistinctIds(list: seq<Agent>) {
    forall i, j :: 0 <= i < j < |list| ==> list[i].id != list[j].id
  }

  lemma {:induction false} DropAgentDrops(list: seq<Agent>, id: Id)
    requires DistinctIds(list)
    ensures DistinctIds(DropAgent(list, id))
    ensures forall a :: a in DropAgent(list, id) <==> a in list && a.id != id
  {
    if list != [] {
      var rest := list[1..];
      assert list == [list[0]] + rest;
      forall i, j | 0 <= i < j < |rest| ensures rest[i].id != rest[j].id {
        assert rest[i] == list[i + 1] && rest[j] == list[j + 1];
      }
      forall a | a in rest ensures a.id != list[0].id {
        var i :| 0 <= i < |rest| && rest[i] == a;
        assert list[i + 1] == a;
      }
      DropAgentDrops(rest, id);
    }
  }

  /** What is left of a queue, what was taken from it, and who is left. */
  datatype Pass = Pass(left: seq<Task>, taken: seq<Assignment>, available: seq<Agent>, rr: nat)

  /** The inner loop: tasks are taken from the front until no agent is left or the front task finds none. */
  function WorkQueue(queue: seq<Task>, available: seq<Agent>, rr: nat): Pass {
    if queue == [] || available == [] then Pass(queue, [], available, rr)
    else
      match Select(queue[0], available, rr)
      case (None, _) => Pass(queue, [], available, rr)
      case (Some(a), rr') =>
        var rest := WorkQueue(queue[1..], DropAgent(available, a.id), rr');
        rest.(taken := [Assignment(queue[0], a)] + rest.taken)
  }

  function TasksOf(taken: seq<Assignment>): seq<Task> { seq(|taken|, i requires 0 <= i < |taken| => taken[i].task) }

  function AgentIds(taken: seq<Assignment>): set<Id> { set i | 0 <= i < |taken| :: taken[i].agent.id }

  /** Every task went to a capable agent, no agent got two, and the others are still available. */
  ghost predicate Sound(taken: seq<Assignment>, before: seq<Agent>, after: seq<Agent>) {
    && DistinctIds(after)
    && (forall i :: 0 <= i < |taken| ==> taken[i].agent in before && Capable(taken[i].task, taken[i].agent))
    && (forall i, j :: 0 <= i < j < |taken| ==> taken[i].agent.id != taken[j].agent.id)
    && (forall a :: a in after <==> a in before && a.id !in AgentIds(taken))
  }

  /** Nobody available could take the first task of this queue. */
  ghost predicate Stuck(queue: seq<Task>, available: seq<Agent>) {
    queue == [] || forall a :: a in available ==> !Capable(queue[0], a)
  }

  lemma AgentIdsJoin(first: seq<Assignment>, second: seq<Assignment>)
    ensures AgentIds(first + second) == AgentIds(first) + AgentIds(second)
  {
    var all := first + second;
    forall id | id in AgentIds(first) + AgentIds(second) ensures id in AgentIds(all) {
      if id in AgentIds(first) {
        var i :| 0 <= i < |first| && first[i].agent.id == id;
        assert all[i].agent.id == id;
      } else {
        var i :| 0 <= i < |second| && second[i].agent.id == id;
        assert all[|first| + i].agent.id == id;
      }
    }
  }

  lemma SoundJoin(first: seq<Assignment>, second: seq<Assignment>, before: seq<Agent>, middle: seq<Agent>,
      after: seq<Agent>)
    requires Sound(first, before, middle) && Sound(second, middle, after)
    ensures Sound(first + second, before, after)
  {
    AgentIdsJoin(first, second);
    var all := first + second;
    forall i, j | 0 <= i < j < |all| ensures all[i].agent.id != all[j].agent.id {
      if i < |first| <= j {
        assert second[j - |first|].agent in middle;
        assert first[i].agent.id in AgentIds(first);
      }
    }
  }

  lemma SoundOne(first: Assignment, before: seq<Agent>)
    requires DistinctIds(before) && first.agent in before && Capable(first.task, first.agent)
    ensures Sound([first], before, DropAgent(before, first.agent.id))
  {
    DropAgentDrops(before, first.agent.id);
    assert [first][0] == first;
    assert AgentIds([first]) == {first.agent.id};
  }

  lemma TasksJoin(first: Assignment, taken: seq<Assignment>)
    ensures TasksOf([first] + taken) == [first.task] + TasksOf(taken)
  {
  }

  /** The inner loop takes a prefix of the queue, soundly, and stops only when it must. */
  ghost predicate Worked(queue: seq<Task>, available: seq<Agent>, p: Pass) {
    queue == TasksOf(p.taken) + p.left && Sound(p.taken, available, p.available) && Stuck(p.left, p.available)
  }

  lemma WorkedFirst(queue: seq<Task>, available: seq<Agent>, a: Agent, rest: Pass)
    requires queue != [] && DistinctIds(available) && a in available && Capable(queue[0], a)
    requires Worked(queue[1..], DropAgent(available, a.id), rest)
    ensures Worked(queue, available, rest.(taken := [Assignment(queue[0], a)] + rest.taken))
  {
    SoundOne(Assignment(queue[0], a), available);
    SoundJoin([Assignment(queue[0], a)], rest.taken, available, DropAgent(available, a.id), rest.available);
    TasksJoin(Assignment(queue[0], a), rest.taken);
  }

  lemma WorkedNone(queue: seq<Task>, available: seq<Agent>, rr: nat)
    requires DistinctIds(available) && Stuck(queue, available)
    ensures Worked(queue, available, Pass(queue, [], available, rr))
  {
    assert AgentIds([]) == {};
    assert TasksOf([]) + queue == queue;
  }

  lemma {:induction false} QueueIsWorked(queue: seq<Task>, available: seq<Agent>, rr: nat)
    requires DistinctIds(available)
    ensures Worked(queue, available, WorkQueue(queue, available, rr))
  {
    if queue == [] || available == [] {
      WorkedNone(queue, available, rr);
    } else {
      SelectFinds(queue[0], available, rr);
      var (a, rr') := Select(queue[0], available, rr);
      if a.None? {
        WorkedNone(queue, available, rr);
      } else {
        DropAgentDrops(available, a.value.id);
        QueueIsWorked(queue[1..], DropAgent(available, a.value.id), rr');
        WorkedFirst(queue, available, a.value, WorkQueue(queue[1..], DropAgent(available, a.value.id), rr'));
      }
    }
  }

  /** `taken[p]` is what was taken from queue p. */
  datatype Round = Round(queues: seq<seq<Task>>, taken: seq<seq<Assignment>>, available: seq<Agent>, rr: nat)

  /** The outer loop over the first n priorities. */
  function WorkQueues(queues: seq<seq<Task>>, n: nat, available: seq<Agent>, rr: nat): (r: Round)
    requires n <= |queues|
    ensures |r.queues| == |queues| && |r.taken| == n
  {
    if n == 0 then Round(queues, [], available, rr)
    else
      var r := WorkQueues(queues, n - 1, available, rr);
      var p := WorkQueue(r.queues[n - 1], r.available, r.rr);
      Round(r.queues[n - 1 := p.left], r.taken + [p.taken], p.available, p.rr)
  }

  function Flatten(taken: seq<seq<Assignment>>): seq<Assignment> {
    if taken == [] then [] else Flatten(taken[..|taken| - 1]) + taken[|taken| - 1]
  }

  /**
   After the first n priorities: each queue lost a prefix, the
   assignments are sound, and nothing more can be done in these queues.
   */
  ghost predicate RoundOk(queues: seq<seq<Task>>, n: nat, available: seq<Agent>, r: Round) {
    && n <= |queues| && |r.queues| == |queues| && |r.taken| == n
    && (forall p :: 0 <= p < n ==> queues[p] == TasksOf(r.taken[p]) + r.queues[p] && Stuck(r.queues[p], r.available))
    && (forall p :: n <= p < |queues| ==> r.queues[p] == queues[p])
    && Sound(Flatten(r.taken), available, r.available)
  }

  lemma RoundNext(queues: seq<seq<Task>>, n: nat, available: seq<Agent>, r: Round, p: Pass)
    requires n < |queues| && RoundOk(queues, n, available, r) && Worked(queues[n], r.available, p)
    ensures RoundOk(queues, n + 1, available, Round(r.queues[n := p.left], r.taken + [p.taken], p.available, p.rr))
  {
    assert (r.taken + [p.taken])[..n] == r.taken;
    SoundJoin(Flatten(r.taken), p.taken, available, r.available, p.available);
  }

  /**
   One pass is sound and work-conserving: afterwards no agent that is
   still available could take the first task of any queue.
   */
  lemma {:induction false} PassIsSound(queues: seq<seq<Task>>, n: nat, available: seq<Agent>, rr: nat)
    requires n <= |queues| && DistinctIds(available)
    ensures RoundOk(queues, n, available, WorkQueues(queues, n, available, rr))
  {
    if n == 0 {
      assert AgentIds([]) == {};
    } else {
      PassIsSound(queues, n - 1, available, rr);
      var r := WorkQueues(queues, n - 1, available, rr);
      QueueIsWorked(r.queues[n - 1], r.available, r.rr);
      RoundNext(queues, n - 1, available, r, WorkQueue(r.queues[n - 1], r.available, r.rr));
    }
  }
}
