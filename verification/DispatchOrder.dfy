/**
 src/agents/scheduler.js, one scheduling pass against a plain reference: again and again, the most urgent queue
 whose first task some free agent can take gives that task away. The pass of the source, which goes through the
 queues once, makes exactly these assignments, in this order.
 */
module DispatchOrder {
  import opened JsCollections
  import opened Dispatch

  predicate SomeCapable(task: Task, available: seq<Agent>) { exists a :: a in available && Capable(task, a) }

  predicate Ready(queue: seq<Task>, available: seq<Agent>) { queue != [] && SomeCapable(queue[0], available) }

  /** The most urgent queue, from p on, whose first task can be taken; the number of queues when there is none. */
  function MostUrgent(queues: seq<seq<Task>>, p: nat, available: seq<Agent>): (q: nat)
    requires p <= |queues|
    ensures p <= q <= |queues| && (q < |queues| ==> Ready(queues[q], available))
    ensures forall i :: p <= i < q ==> !Ready(queues[i], available)
    decreases |queues| - p
  {
    if p == |queues| || Ready(queues[p], available) then p else MostUrgent(queues, p + 1, available)
  }

  /** The assignments, and what they leave. */
  datatype Result = Result(queues: seq<seq<Task>>, taken: seq<Assignment>, available: seq<Agent>, rr: nat)

  lemma {:induction false} DropShrinks(list: seq<Agent>, a: Agent)
    requires a in list
    ensures |DropAgent(list, a.id)| == |list| - 1
  {
    if list[0].id != a.id {
      assert a in list[1..];
      DropShrinks(list[1..], a);
    }
  }

  function OneByOne(queues: seq<seq<Task>>, available: seq<Agent>, rr: nat): Result
    decreases |available|
  {
    var p := MostUrgent(queues, 0, available);
    if p == |queues| then Result(queues, [], available, rr)
    else
      var task := queues[p][0];
      var (agent, rr') := Select(task, available, rr);
      SelectFinds(task, available, rr);
      DropShrinks(available, agent.value);
      var rest := OneByOne(queues[p := queues[p][1..]], DropAgent(available, agent.value.id), rr');
      rest.(taken := [Assignment(task, agent.value)] + rest.taken)
  }

  // ---------- The inner loop ----------

  /** What the passes over the first queues have taken, before the rest. */
  function Before(taken: seq<Assignment>, r: Result): Result { r.(taken := taken + r.taken) }

  ghost predicate AllStuck(queues: seq<seq<Task>>, p: nat, available: seq<Agent>) {
    p <= |queues| && forall i :: 0 <= i < p ==> !Ready(queues[i], available)
  }

  lemma StuckIsNotReady(queue: seq<Task>, available: seq<Agent>)
    ensures Stuck(queue, available) <==> !Ready(queue, available)
  {
  }

  lemma {:induction false} DroppedWereThere(list: seq<Agent>, id: Id)
    ensures forall a :: a in DropAgent(list, id) ==> a in list
  {
    if list != [] && list[0].id != id {
      DroppedWereThere(list[1..], id);
    }
  }

  /** Fewer agents make no queue ready. */
  lemma StaysStuck(queues: seq<seq<Task>>, p: nat, available: seq<Agent>, id: Id, queue: seq<Task>)
    requires AllStuck(queues, p, available) && p < |queues|
    ensures AllStuck(queues[p := queue], p, DropAgent(available, id))
  {
    DroppedWereThere(available, id);
  }

  lemma NextUp(queues: seq<seq<Task>>, p: nat, available: seq<Agent>, rr: nat)
    requires AllStuck(queues, p, available) && p < |queues| && Ready(queues[p], available)
    ensures var (agent, rr') := Select(queues[p][0], available, rr);
      && agent.Some? && agent.value in available
      && OneByOne(queues, available, rr)
        == Before([Assignment(queues[p][0], agent.value)],
          OneByOne(queues[p := queues[p][1..]], DropAgent(available, agent.value.id), rr'))
  {
    SelectFinds(queues[p][0], available, rr);
    assert MostUrgent(queues, 0, available) == p;
  }

  lemma {:induction false} QueueInOrder(queues: seq<seq<Task>>, p: nat, available: seq<Agent>, rr: nat)
    requires AllStuck(queues, p, available) && p < |queues|
    ensures var w := WorkQueue(queues[p], available, rr);
      && OneByOne(queues, available, rr) == Before(w.taken, OneByOne(queues[p := w.left], w.available, w.rr))
      && AllStuck(queues[p := w.left], p + 1, w.available)
    decreases |available|
  {
    SelectNone(queues[p], available, rr);
    if Ready(queues[p], available) {
      NextUp(queues, p, available, rr);
      var (agent, rr') := Select(queues[p][0], available, rr);
      var rest := queues[p := queues[p][1..]];
      DropShrinks(available, agent.value);
      StaysStuck(queues, p, available, agent.value.id, queues[p][1..]);
      QueueInOrder(rest, p, DropAgent(available, agent.value.id), rr');
      var w := WorkQueue(rest[p], DropAgent(available, agent.value.id), rr');
      assert rest[p := w.left] == queues[p := w.left];
      BeforeTwice([Assignment(queues[p][0], agent.value)], w.taken, OneByOne(queues[p := w.left], w.available, w.rr));
    } else {
      assert queues[p := queues[p]] == queues;
      NothingBefore(OneByOne(queues, available, rr));
    }
  }

  lemma SelectNone(queue: seq<Task>, available: seq<Agent>, rr: nat)
    ensures !Ready(queue, available) ==> WorkQueue(queue, available, rr) == Pass(queue, [], available, rr)
    ensures Ready(queue, available) ==>
      var (agent, rr') := Select(queue[0], available, rr);
      agent.Some? && var rest := WorkQueue(queue[1..], DropAgent(available, agent.value.id), rr');
        WorkQueue(queue, available, rr) == rest.(taken := [Assignment(queue[0], agent.value)] + rest.taken)
  {
    if queue != [] {
      SelectFinds(queue[0], available, rr);
    }
  }

  lemma BeforeTwice(a: seq<Assignment>, b: seq<Assignment>, r: Result)
    ensures Before(a, Before(b, r)) == Before(a + b, r)
  {
    assert a + (b + r.taken) == a + b + r.taken;
  }

  lemma NothingBefore(r: Result)
    ensures Before([], r) == r
  {
    assert [] + r.taken == r.taken;
  }

  // ---------- The outer loop ----------

  /** An unfinished pass has made the first assignments of the reference, and the first n queues are done with. */
  ghost predicate OnTheWay(all: Result, w: Round, n: nat) {
    && all == Before(Flatten(w.taken), OneByOne(w.queues, w.available, w.rr)) && AllStuck(w.queues, n, w.available)
  }

  lemma NextQueueInOrder(all: Result, w: Round, n: nat)
    requires OnTheWay(all, w, n) && n < |w.queues|
    ensures var p := WorkQueue(w.queues[n], w.available, w.rr);
      OnTheWay(all, Round(w.queues[n := p.left], w.taken + [p.taken], p.available, p.rr), n + 1)
  {
    var p := WorkQueue(w.queues[n], w.available, w.rr);
    QueueInOrder(w.queues, n, w.available, w.rr);
    assert (w.taken + [p.taken])[..|w.taken|] == w.taken;
    BeforeTwice(Flatten(w.taken), p.taken, OneByOne(w.queues[n := p.left], p.available, p.rr));
  }

  lemma {:induction false} QueuesInOrder(queues: seq<seq<Task>>, n: nat, available: seq<Agent>, rr: nat)
    requires n <= |queues|
    ensures OnTheWay(OneByOne(queues, available, rr), WorkQueues(queues, n, available, rr), n)
  {
    if n == 0 {
      NothingBefore(OneByOne(queues, available, rr));
    } else {
      QueuesInOrder(queues, n - 1, available, rr);
      NextQueueInOrder(OneByOne(queues, available, rr), WorkQueues(queues, n - 1, available, rr), n - 1);
    }
  }

  /**
   One pass assigns tasks one by one, each time the first of the most urgent queue whose first task any agent that
   is still free can take, to the agent selected for it; and it leaves what is then left.
   */
  lemma PassIsOneByOne(queues: seq<seq<Task>>, available: seq<Agent>, rr: nat)
    ensures var w := WorkQueues(queues, |queues|, available, rr);
      OneByOne(queues, available, rr) == Result(w.queues, Flatten(w.taken), w.available, w.rr)
  {
    QueuesInOrder(queues, |queues|, available, rr);
    var w := WorkQueues(queues, |queues|, available, rr);
    assert MostUrgent(w.queues, 0, w.available) == |w.queues|;
    assert Flatten(w.taken) + [] == Flatten(w.taken);
  }

  // ---------- What a less urgent queue gets ----------

  /** No agent that went to a less urgent queue could have taken the task that a more urgent one still waits with. */
  ghost predicate UrgentFirst(taken: seq<seq<Assignment>>, after: seq<seq<Task>>) {
    |taken| == |after| && forall p, q, i :: 0 <= p < q < |taken| && after[p] != [] && 0 <= i < |taken[q]| ==>
      !Capable(after[p][0], taken[q][i].agent)
  }

  lemma {:induction false} TakenWereThere(queue: seq<Task>, available: seq<Agent>, rr: nat)
    ensures var w := WorkQueue(queue, available, rr);
      && (forall i :: 0 <= i < |w.taken| ==> w.taken[i].agent in available)
      && (forall a :: a in w.available ==> a in available)
    decreases |queue|
  {
    if queue != [] && available != [] {
      SelectFinds(queue[0], available, rr);
      var (agent, rr') := Select(queue[0], available, rr);
      if agent.Some? {
        DroppedWereThere(available, agent.value.id);
        TakenWereThere(queue[1..], DropAgent(available, agent.value.id), rr');
      }
    }
  }

  /** The same of the first n queues of an unfinished pass. */
  ghost predicate UrgentSoFar(w: Round, n: nat) {
    && n <= |w.queues| && |w.taken| == n
    && forall p, q, i :: 0 <= p < q < n && w.queues[p] != [] && 0 <= i < |w.taken[q]| ==>
      !Capable(w.queues[p][0], w.taken[q][i].agent)
  }

  lemma UrgentNext(w: Round, n: nat, p: Pass)
    requires n < |w.queues| && UrgentSoFar(w, n) && AllStuck(w.queues, n, w.available)
    requires forall i :: 0 <= i < |p.taken| ==> p.taken[i].agent in w.available
    ensures UrgentSoFar(Round(w.queues[n := p.left], w.taken + [p.taken], p.available, p.rr), n + 1)
  {
  }

  lemma {:induction false} LaterTakesLess(queues: seq<seq<Task>>, n: nat, available: seq<Agent>, rr: nat)
    requires n <= |queues|
    ensures UrgentSoFar(WorkQueues(queues, n, available, rr), n)
  {
    if n > 0 {
      var w := WorkQueues(queues, n - 1, available, rr);
      LaterTakesLess(queues, n - 1, available, rr);
      QueuesInOrder(queues, n - 1, available, rr);
      TakenWereThere(w.queues[n - 1], w.available, w.rr);
      UrgentNext(w, n - 1, WorkQueue(w.queues[n - 1], w.available, w.rr));
    }
  }

  lemma PassIsUrgentFirst(queues: seq<seq<Task>>, available: seq<Agent>, rr: nat)
    ensures var w := WorkQueues(queues, |queues|, available, rr); UrgentFirst(w.taken, w.queues)
  {
    LaterTakesLess(queues, |queues|, available, rr);
  }

  // ---------- The other strategies ----------

  lemma {:induction false} FirstCandidate(task: Task, available: seq<Agent>) returns (i: nat)
    requires Candidates(task, available) != []
    ensures i < |available| && available[i] == Candidates(task, available)[0] && Capable(task, available[i])
    ensures forall j :: 0 <= j < i ==> !Capable(task, available[j])
  {
    var init := available[..|available| - 1];
    if Candidates(task, init) == [] {
      i := |available| - 1;
      forall j | 0 <= j < i ensures !Capable(task, available[j]) {
        assert available[j] == init[j] && init[j] in init;
        assert init[j] in Candidates(task, init) <==> Capable(task, init[j]);
      }
    } else {
      i := FirstCandidate(task, init);
    }
  }

  /** Without a preference, and neither ROUND_ROBIN nor LOAD_BASED: the first agent, in order, that is capable. */
  lemma SelectFirst(task: Task, available: seq<Agent>, rr: nat) returns (i: nat)
    requires task.preferredAgent == "" && task.strategy !in {ROUND_ROBIN, LOAD_BASED} && SomeCapable(task, available)
    ensures i < |available| && Select(task, available, rr) == (Some(available[i]), rr) && Capable(task, available[i])
    ensures forall j :: 0 <= j < i ==> !Capable(task, available[j])
  {
    SelectFinds(task, available, rr);
    var a :| a in available && Capable(task, a);
    assert a in Candidates(task, available);
    i := FirstCandidate(task, available);
  }
}
