/**
 src/agents/scheduler.js over whole runs: tasks of one priority that no departing agent gave back are
 scheduled in the order in which they were submitted.
 */
module SchedulerOrder {
  import opened JsCollections
  import opened Dispatch
  import opened Scheduler
  import opened SchedulerRuns

  /** Of two tasks that were never requeued and have the same priority, the earlier one has the smaller serial. */
  predicate Before(a: Task, b: Task, requeued: set<nat>) {
    a.priority != b.priority || a.serial in requeued || b.serial in requeued || a.serial < b.serial
  }

  ghost predicate InOrder(list: seq<Task>, requeued: set<nat>) {
    forall i, j :: 0 <= i < j < |list| ==> Before(list[i], list[j], requeued)
  }

  ghost predicate AllBefore(first: seq<Task>, second: seq<Task>, requeued: set<nat>) {
    forall i, j :: 0 <= i < |first| && 0 <= j < |second| ==> Before(first[i], second[j], requeued)
  }

  ghost predicate Fifo(queues: seq<seq<Task>>, log: seq<Task>, requeued: set<nat>, submitted: nat) {
    && InOrder(log, requeued)
    && (forall p :: 0 <= p < |queues| ==> InOrder(queues[p], requeued) && AllBefore(log, queues[p], requeued))
    && (forall p, i :: 0 <= p < |queues| && 0 <= i < |queues[p]| ==> queues[p][i].serial < submitted)
    && (forall i :: 0 <= i < |log| ==> log[i].serial < submitted)
  }

  lemma InOrderJoin(a: seq<Task>, b: seq<Task>, requeued: set<nat>)
    ensures InOrder(a + b, requeued) <==> InOrder(a, requeued) && InOrder(b, requeued) && AllBefore(a, b, requeued)
  {
    var c := a + b;
    assert forall i :: 0 <= i < |a| ==> a[i] == c[i];
    assert forall i :: 0 <= i < |b| ==> b[i] == c[|a| + i];
    if InOrder(c, requeued) {
      forall i, j | 0 <= i < j < |a| ensures Before(a[i], a[j], requeued) {
        assert Before(c[i], c[j], requeued);
      }
      forall i, j | 0 <= i < j < |b| ensures Before(b[i], b[j], requeued) {
        assert Before(c[|a| + i], c[|a| + j], requeued);
      }
      forall i, j | 0 <= i < |a| && 0 <= j < |b| ensures Before(a[i], b[j], requeued) {
        assert Before(c[i], c[|a| + j], requeued);
      }
    }
  }

  lemma AllBeforeParts(log: seq<Task>, a: seq<Task>, b: seq<Task>, requeued: set<nat>)
    requires AllBefore(log, a + b, requeued)
    ensures AllBefore(log, a, requeued) && AllBefore(log, b, requeued)
  {
    var c := a + b;
    forall i, j | 0 <= i < |log| && 0 <= j < |a| ensures Before(log[i], a[j], requeued) {
      assert a[j] == c[j];
    }
    forall i, j | 0 <= i < |log| && 0 <= j < |b| ensures Before(log[i], b[j], requeued) {
      assert b[j] == c[|a| + j];
    }
  }

  lemma AllBeforeJoin(a: seq<Task>, b: seq<Task>, queue: seq<Task>, requeued: set<nat>)
    requires AllBefore(a, queue, requeued) && AllBefore(b, queue, requeued)
    ensures AllBefore(a + b, queue, requeued)
  {
  }

  /** Taking a prefix of a queue. */
  lemma TakePrefix(queues: seq<seq<Task>>, log: seq<Task>, requeued: set<nat>, submitted: nat, p: nat,
      taken: seq<Task>, left: seq<Task>)
    requires Fifo(queues, log, requeued, submitted) && Sorted(queues)
    requires p < |queues| && queues[p] == taken + left
    ensures Fifo(queues[p := left], log + taken, requeued, submitted) && Sorted(queues[p := left])
  {
    assert forall i :: 0 <= i < |taken| ==> taken[i] == queues[p][i];
    assert forall i :: 0 <= i < |left| ==> left[i] == queues[p][|taken| + i];
    InOrderJoin(taken, left, requeued);
    AllBeforeParts(log, taken, left, requeued);
    InOrderJoin(log, taken, requeued);
    AllBeforeJoin(log, taken, left, requeued);
    forall q | 0 <= q < |queues| && q != p ensures AllBefore(log + taken, queues[q], requeued) {
      OtherPriority(taken, queues[q], p, q, requeued);
      AllBeforeJoin(log, taken, queues[q], requeued);
    }
  }

  lemma OtherPriority(a: seq<Task>, b: seq<Task>, p: nat, q: nat, requeued: set<nat>)
    requires p != q && (forall i :: 0 <= i < |a| ==> a[i].priority == p)
    requires (forall i :: 0 <= i < |b| ==> b[i].priority == q)
    ensures AllBefore(a, b, requeued)
  {
  }

  lemma {:induction false} RoundKeepsFifo(queues: seq<seq<Task>>, n: nat, available: seq<Agent>, rr: nat,
      log: seq<Task>, requeued: set<nat>, submitted: nat)
    requires n <= |queues| && DistinctIds(available) && Fifo(queues, log, requeued, submitted) && Sorted(queues)
    ensures var r := WorkQueues(queues, n, available, rr);
      Fifo(r.queues, log + TasksOf(Flatten(r.taken)), requeued, submitted) && Sorted(r.queues)
  {
    if n == 0 {
      assert log + TasksOf([]) == log;
    } else {
      RoundKeepsFifo(queues, n - 1, available, rr, log, requeued, submitted);
      PassIsSound(queues, n - 1, available, rr);
      var r := WorkQueues(queues, n - 1, available, rr);
      var p := WorkQueue(r.queues[n - 1], r.available, r.rr);
      QueueIsWorked(r.queues[n - 1], r.available, r.rr);
      TakePrefix(r.queues, log + TasksOf(Flatten(r.taken)), requeued, submitted, n - 1, TasksOf(p.taken), p.left);
      LogGrows(log, r.taken, p.taken);
    }
  }

  lemma LogGrows(log: seq<Task>, taken: seq<seq<Assignment>>, more: seq<Assignment>)
    ensures log + TasksOf(Flatten(taken + [more])) == log + TasksOf(Flatten(taken)) + TasksOf(more)
  {
    assert (taken + [more])[..|taken|] == taken;
    assert TasksOf(Flatten(taken) + more) == TasksOf(Flatten(taken)) + TasksOf(more);
  }

  ghost predicate Known(active: JsMap<Id, Task>, submitted: nat) {
    forall k :: k in active.vals ==> active.vals[k].serial < submitted
  }

  lemma SetKeepsKnown(active: JsMap<Id, Task>, k: Id, t: Task, submitted: nat)
    requires Known(active, submitted) && t.serial < submitted
    ensures Known(active.Set(k, t), submitted)
  {
  }

  lemma {:induction false} ScheduledKnown(active: JsMap<Id, Task>, taken: seq<Assignment>, submitted: nat)
    requires Known(active, submitted) && forall i :: 0 <= i < |taken| ==> taken[i].task.serial < submitted
    ensures Known(ScheduleAll(active, taken), submitted)
  {
    if taken != [] {
      var init, last := taken[..|taken| - 1], taken[|taken| - 1];
      ScheduledKnown(active, init, submitted);
      SetKeepsKnown(ScheduleAll(active, init), last.task.id, Placed(last), submitted);
    }
  }

  ghost predicate Ordered(s: Sched) {
    && |s.queues| == PRIORITIES && Fifo(s.queues, s.log, s.requeued, s.counts.submitted) && Sorted(s.queues)
    && AgentsOk(s.agents) && Known(s.active, s.counts.submitted)
  }

  lemma PassKeepsOrdered(s: Sched)
    requires Ordered(s)
    ensures Ordered(PassStep(s))
  {
    if s.isRunning {
      var available := Available(s.agents);
      AvailableDistinct(s.agents);
      RoundKeepsFifo(s.queues, PRIORITIES, available, s.rr, s.log, s.requeued, s.counts.submitted);
      TakenKnown(s.log, Flatten(WorkQueues(s.queues, PRIORITIES, available, s.rr).taken), s.active, s.counts.submitted);
    }
  }

  lemma TakenKnown(log: seq<Task>, taken: seq<Assignment>, active: JsMap<Id, Task>, submitted: nat)
    requires Known(active, submitted) && forall i :: 0 <= i < |log + TasksOf(taken)| ==>
      (log + TasksOf(taken))[i].serial < submitted
    ensures Known(ScheduleAll(active, taken), submitted)
  {
    forall i | 0 <= i < |taken| ensures taken[i].task.serial < submitted {
      assert (log + TasksOf(taken))[|log| + i] == taken[i].task;
    }
    ScheduledKnown(active, taken, submitted);
  }

  /** A newly submitted task has the greatest serial, and joins the end. */
  lemma EnqueueKeepsFifo(queues: seq<seq<Task>>, log: seq<Task>, requeued: set<nat>, t: Task)
    requires Fifo(queues, log, requeued, t.serial) && Sorted(queues) && t.priority < |queues|
    ensures var queues' := queues[t.priority := queues[t.priority] + [t]];
      Fifo(queues', log, requeued, t.serial + 1) && Sorted(queues')
  {
    InOrderJoin(queues[t.priority], [t], requeued);
  }

  lemma RemoveKeepsFifo(queues: seq<seq<Task>>, log: seq<Task>, requeued: set<nat>, submitted: nat, p: nat, i: nat)
    requires Fifo(queues, log, requeued, submitted) && Sorted(queues) && p < |queues| && i < |queues[p]|
    ensures var queues' := queues[p := RemoveAt(queues[p], i)];
      Fifo(queues', log, requeued, submitted) && Sorted(queues')
  {
    var q, q' := queues[p], RemoveAt(queues[p], i);
    assert forall j :: 0 <= j < |q'| ==> q'[j] == if j < i then q[j] else q[j + 1];
  }

  /** A task that is given back goes to the front, and no longer counts. */
  lemma RequeueKeepsFifo(queues: seq<seq<Task>>, log: seq<Task>, requeued: set<nat>, submitted: nat, t: Task)
    requires Fifo(queues, log, requeued, submitted) && Sorted(queues) && t.priority < |queues| && t.serial < submitted
    ensures var queues' := queues[t.priority := [t] + queues[t.priority]];
      Fifo(queues', log, requeued + {t.serial}, submitted) && Sorted(queues')
  {
    var after := requeued + {t.serial};
    LaterOrder(log, requeued, after);
    forall p | 0 <= p < |queues| ensures InOrder(queues[p], after) && AllBefore(log, queues[p], after) {
      LaterOrder(queues[p], requeued, after);
      LaterBefore(log, queues[p], requeued, after);
    }
    InOrderJoin([t], queues[t.priority], after);
  }

  lemma LaterOrder(list: seq<Task>, requeued: set<nat>, after: set<nat>)
    requires requeued <= after && InOrder(list, requeued)
    ensures InOrder(list, after)
  {
    forall i, j | 0 <= i < j < |list| ensures Before(list[i], list[j], after) {
      assert Before(list[i], list[j], requeued);
    }
  }

  lemma LaterBefore(a: seq<Task>, b: seq<Task>, requeued: set<nat>, after: set<nat>)
    requires requeued <= after && AllBefore(a, b, requeued)
    ensures AllBefore(a, b, after)
  {
    forall i, j | 0 <= i < |a| && 0 <= j < |b| ensures Before(a[i], b[j], after) {
      assert Before(a[i], b[j], requeued);
    }
  }

  // ---------- Whole runs ----------

  lemma SubmitKeepsOrdered(s: Sched, maxQueueSize: int, r: Request)
    requires Ordered(s)
    ensures Ordered(SubmitStep(s, maxQueueSize, r).0)
  {
    if 0 <= r.priority < PRIORITIES {
      var t := NewTask(r, s.counts.submitted);
      EnqueueKeepsFifo(s.queues, s.log, s.requeued, t);
      PassKeepsOrdered(s.(queues := s.queues[t.priority := s.queues[t.priority] + [t]],
                          counts := s.counts.(submitted := s.counts.submitted + 1)));
    }
  }

  lemma CancelKeepsOrdered(s: Sched, id: Id)
    requires Ordered(s)
    ensures Ordered(CancelStep(s, id).0)
  {
    var p := QueueWith(s.queues, 0, id);
    if p < |s.queues| {
      RemoveKeepsFifo(s.queues, s.log, s.requeued, s.counts.submitted, p, IndexOf(s.queues[p], id));
    }
  }

  lemma ReassignOneKeepsOrdered(s: Sched, id: Id, agent: Id)
    requires Ordered(s)
    ensures Ordered(ReassignOne(s, id, agent))
  {
    if s.active.Has(id) && s.active.vals[id].priority < |s.queues| {
      RequeueKeepsFifo(s.queues, s.log, s.requeued, s.counts.submitted,
        s.active.vals[id].(state := PENDING, assignedAgent := None));
    }
  }

  lemma {:induction false} ReassignKeepsOrdered(s: Sched, ids: seq<Id>, agent: Id)
    requires Ordered(s)
    ensures Ordered(Reassign(s, ids, agent))
  {
    if ids != [] {
      ReassignKeepsOrdered(s, ids[..|ids| - 1], agent);
      ReassignOneKeepsOrdered(Reassign(s, ids[..|ids| - 1], agent), ids[|ids| - 1], agent);
    }
  }

  lemma ApplyKeepsOrdered(maxQueueSize: int, s: Sched, op: Op)
    requires Ordered(s)
    ensures Ordered(Apply(maxQueueSize, s, op))
  {
    match op
    case Submit(r) => SubmitKeepsOrdered(s, maxQueueSize, r);
    case Cancel(id) => CancelKeepsOrdered(s, id);
    case Start(id, agent) =>
    case End(id, state) =>
      if IsEnd(state) && s.active.Has(id) {
        PassKeepsOrdered(RetireStep(s, id, state));
      }
    case Register(id, caps, max) =>
    case Unregister(id) => ReassignKeepsOrdered(s, s.active.keys, id);
    case Tick => PassKeepsOrdered(s);
    case Run =>
    case Stop =>
    case ClearHistory =>
  }

  lemma EmptyIsOrdered(s: Sched)
    requires |s.queues| == PRIORITIES && (forall p :: 0 <= p < |s.queues| ==> s.queues[p] == [])
    requires s.active == EmptyMap() && s.agents == EmptyMap() && s.log == []
    ensures Ordered(s)
  {
  }

  lemma {:induction false} RunKeepsOrdered(maxQueueSize: int, ops: seq<Op>)
    ensures Ordered(After(maxQueueSize, ops))
  {
    if ops == [] {
      EmptyIsOrdered(INITIAL);
    } else {
      RunKeepsOrdered(maxQueueSize, ops[..|ops| - 1]);
      ApplyKeepsOrdered(maxQueueSize, After(maxQueueSize, ops[..|ops| - 1]), ops[|ops| - 1]);
    }
  }

  /**
   In every run, of two tasks of one priority that were never requeued, the one scheduled first was
   submitted first; and what still waits was submitted after everything of its priority that was scheduled.
   */
  lemma FirstInFirstOut(maxQueueSize: int, ops: seq<Op>, s: Sched)
    requires s == After(maxQueueSize, ops)
    ensures forall i, j :: 0 <= i < j < |s.log| && s.log[i].priority == s.log[j].priority ==>
      s.log[i].serial in s.requeued || s.log[j].serial in s.requeued || s.log[i].serial < s.log[j].serial
    ensures forall i, p, j ::
      0 <= i < |s.log| && 0 <= p < |s.queues| && 0 <= j < |s.queues[p]| && s.log[i].priority == p ==>
      s.log[i].serial in s.requeued || s.queues[p][j].serial in s.requeued || s.log[i].serial < s.queues[p][j].serial
  {
    RunKeepsOrdered(maxQueueSize, ops);
    forall i, j | 0 <= i < j < |s.log| ensures Before(s.log[i], s.log[j], s.requeued) {
    }
    forall i, p, j | 0 <= i < |s.log| && 0 <= p < |s.queues| && 0 <= j < |s.queues[p]| && s.log[i].priority == p
      ensures Before(s.log[i], s.queues[p][j], s.requeued) && s.queues[p][j].priority == p
    {
      assert AllBefore(s.log, s.queues[p], s.requeued);
    }
  }
}
