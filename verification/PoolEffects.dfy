/**
 src/agents/pool.js, what each step does to the agents, in terms of what was there: which come and go, which are
 acquired, what acquire answers, and in which order calls that must wait stand in line.
 */
module PoolEffects {
  import opened JsCollections
  import opened Pool
  import opened PoolRuns

  // ---------- acquire ----------

  lemma {:induction false} FirstAvailableIsUsable(p: PoolState, n: nat)
    requires PoolOk(p) && 0 < n <= |p.available|
    ensures FirstUsable(p, n) == Some(p.available[0])
  {
    assert p.available[0] in p.available;
    if n > 1 {
      FirstAvailableIsUsable(p, n - 1);
    } else {
      assert FirstUsable(p, 0) == None;
    }
  }

  /**
   acquire refuses when the pool is shutting down; else it grants the agent that has been available longest, if
   there is one; else it creates one if there are fewer than the maximum; else the call waits.
   */
  lemma AcquireAnswers(cfg: Config, p: PoolState, priority: int)
    requires PoolOk(p)
    ensures var (after, answer) := AcquireStep(cfg, p, priority);
      match answer
      case Refused => p.isShuttingDown && after == p
      case Granted(id) =>
        !p.isShuttingDown && p.available != [] && id == p.available[0] && after.available == p.available[1..]
      case MustCreate => !p.isShuttingDown && p.available == [] && p.agents.Size() < cfg.maxPoolSize && after == p
      case MustWait =>
        && !p.isShuttingDown && p.available == [] && p.agents.Size() >= cfg.maxPoolSize && after.agents == p.agents
        && multiset(after.waitQueue) == multiset(p.waitQueue) + multiset{Waiter(p.waiters, priority)}
  {
    if p.available != [] {
      FirstAvailableIsUsable(p, |p.available|);
      FirstTaken(p.available);
    } else {
      assert FirstUsable(p, 0) == None;
    }
    SortDescPermutes(p.waitQueue + [Waiter(p.waiters, priority)], (x: Waiter) => x.priority as real);
  }

  lemma FirstTaken(ids: seq<Id>)
    requires NoDup(ids) && ids != []
    ensures Without(ids, ids[0]) == ids[1..]
  {
    WithoutAbsent(ids[1..], ids[0]);
  }

  // ---------- Which agents come and go ----------

  /** Which agent a step takes away. */
  predicate AgentLeaves(cfg: Config, s: System, l: Label, id: Id)
    requires Enabled(s, l)
  {
    match l
    case Release(_, x) => x == id && s.pool.agents.Has(x) && s.pool.agents.vals[x].acquired && s.pool.isShuttingDown
    case ScaleDown(count) =>
      count >= 1 && s.pool.available != [] && id == s.pool.available[0] && s.pool.agents.Size() > cfg.minPoolSize
    case RemoveNext(i) => s.pending[i].ids != [] && id == s.pending[i].ids[0]
    case IdleTimeout(x) =>
      x == id && s.pool.agents.Has(x) && !s.pool.agents.vals[x].acquired && s.pool.agents.Size() > cfg.minPoolSize
    case Shutdown => !s.pool.isShuttingDown
    case Close(_) => true
    case _ => false
  }

  lemma {:induction false} DestroyedAre(p: PoolState, ids: seq<Id>, id: Id)
    ensures DestroyAll(p, ids).agents.Has(id) <==> p.agents.Has(id) && id !in ids
  {
    if ids != [] {
      DestroyedAre(p, ids[..|ids| - 1], id);
      assert ids == ids[..|ids| - 1] + [ids[|ids| - 1]];
    }
  }

  lemma ShutdownLeaves(p: PoolState, id: Id)
    ensures ShutdownStep(p).agents.Has(id) <==> p.agents.Has(id) && p.isShuttingDown
  {
    DestroyedAre(p.(isShuttingDown := true, idleTimers := {}, waitQueue := []), p.agents.keys, id);
    assert p.agents.Has(id) <==> id in p.agents.keys;
  }

  /** Every step leaves exactly the agent that is born in it and those it does not take away. */
  lemma AgentsAfter(cfg: Config, s: System, l: Label, id: Id)
    requires SystemOk(s) && Enabled(s, l)
    ensures Step(cfg, s, l).pool.agents.Has(id)
      <==> (l.Born? && l.id == id) || (s.pool.agents.Has(id) && !AgentLeaves(cfg, s, l, id))
  {
    match l
    case Shutdown => ShutdownLeaves(s.pool, id);
    case ScaleDown(count) => ScaleDownTakes(cfg, s.pool, count, id);
    case _ =>
  }

  lemma ScaleDownTakes(cfg: Config, p: PoolState, count: int, id: Id)
    ensures RemoveFirst(p, ToRemove(cfg, p, count)).0.agents.Has(id) <==>
      p.agents.Has(id)
        && !(count >= 1 && p.available != [] && id == p.available[0] && p.agents.Size() > cfg.minPoolSize)
  {
  }

  /** scaleUp sets out to create as many as asked for, or as many as there is room for; none during a shutdown. */
  lemma ScaleUpPlans(cfg: Config, p: PoolState, count: int)
    ensures var n := ToAdd(cfg, p, count);
      if p.isShuttingDown then n == 0
      else
        n <= count && p.agents.Size() + n <= cfg.maxPoolSize && (n == count || p.agents.Size() + n == cfg.maxPoolSize)
  {
  }

  // ---------- Which agents are acquired ----------

  /** Whether an agent that is there after a step is then acquired; the others are available. */
  predicate AcquiredBy(cfg: Config, s: System, l: Label, id: Id)
    requires Enabled(s, l) && (s.pool.agents.Has(id) || (l.Born? && l.id == id))
  {
    match l
    case Acquire(_, _) =>
      s.pool.agents.vals[id].acquired
        || (!s.pool.isShuttingDown && s.pool.available != [] && id == s.pool.available[0])
    case Grant(i) => s.pool.agents.vals[id].acquired || id == s.pending[i].id
    case Born(_, x) => x != id && s.pool.agents.vals[id].acquired
    case Release(_, x) => x != id && s.pool.agents.vals[id].acquired
    case _ => s.pool.agents.vals[id].acquired
  }

  lemma {:induction false} DestroyedSame(p: PoolState, ids: seq<Id>, id: Id)
    requires DestroyAll(p, ids).agents.Has(id)
    ensures p.agents.Has(id) && DestroyAll(p, ids).agents.vals[id] == p.agents.vals[id]
  {
    if ids != [] {
      DestroyedSame(p, ids[..|ids| - 1], id);
    }
  }

  /** An agent is acquired by being granted, and until it is released; it is available the rest of the time. */
  lemma AcquiredAfter(cfg: Config, s: System, l: Label, id: Id)
    requires SystemOk(s) && Enabled(s, l) && Step(cfg, s, l).pool.agents.Has(id)
    ensures s.pool.agents.Has(id) || (l.Born? && l.id == id)
    ensures var p := Step(cfg, s, l).pool;
      && (p.agents.vals[id].acquired <==> AcquiredBy(cfg, s, l, id))
      && (id in p.available <==> !AcquiredBy(cfg, s, l, id))
  {
    AgentsAfter(cfg, s, l, id);
    StepKeepsPool(cfg, s, l);
    match l
    case Acquire(_, priority) => AcquireTakes(cfg, s.pool, priority, id);
    case Shutdown => ShutdownKeeps(s.pool, id);
    case _ =>
  }

  lemma AcquireTakes(cfg: Config, p: PoolState, priority: int, id: Id)
    requires PoolOk(p) && p.agents.Has(id)
    ensures var after := AcquireStep(cfg, p, priority).0;
      after.agents.Has(id) && (after.agents.vals[id].acquired <==>
        p.agents.vals[id].acquired || (!p.isShuttingDown && p.available != [] && id == p.available[0]))
  {
    if p.available != [] {
      FirstAvailableIsUsable(p, |p.available|);
    } else {
      assert FirstUsable(p, 0) == None;
    }
  }

  lemma ShutdownKeeps(p: PoolState, id: Id)
    requires ShutdownStep(p).agents.Has(id)
    ensures p.agents.Has(id) && ShutdownStep(p).agents.vals[id] == p.agents.vals[id]
  {
    if !p.isShuttingDown {
      DestroyedSame(p.(isShuttingDown := true, idleTimers := {}, waitQueue := []), p.agents.keys, id);
    }
  }

  /** A released agent is the last in line to be granted again, counts one task more, and has a timer. */
  lemma ReleasedIsLast(p: PoolState, id: Id)
    requires PoolOk(p) && p.agents.Has(id) && p.agents.vals[id].acquired && !p.isShuttingDown
    ensures var after := ReleaseStep(p, id);
      && after.available == p.available + [id] && id in after.idleTimers && after.waitQueue == p.waitQueue
      && after.agents.Has(id) && after.agents.vals[id].taskCount == p.agents.vals[id].taskCount + 1
  {
    assert id !in p.available;
  }

  // ---------- Waiting ----------

  /** Higher priority first, and first come first among equals. */
  ghost predicate InLine(queue: seq<Waiter>) {
    forall i, j :: 0 <= i < j < |queue| ==>
      queue[i].priority > queue[j].priority
        || (queue[i].priority == queue[j].priority && queue[i].number < queue[j].number)
  }

  ghost predicate NumbersBelow(queue: seq<Waiter>, n: nat) { forall i :: 0 <= i < |queue| ==> queue[i].number < n }

  function ByPriority(): Waiter -> real { (x: Waiter) => x.priority as real }

  lemma {:induction false} InsertKeepsLine(queue: seq<Waiter>, w: Waiter)
    requires InLine(queue) && NumbersBelow(queue, w.number)
    ensures InLine(InsertDesc(queue, w, ByPriority()))
  {
    if queue != [] && queue[|queue| - 1].priority < w.priority {
      var init, last := queue[..|queue| - 1], queue[|queue| - 1];
      InsertKeepsLine(init, w);
      InsertDescPermutes(init, w, ByPriority());
      var r := InsertDesc(init, w, ByPriority());
      forall i | 0 <= i < |r| ensures r[i].priority > last.priority
        || (r[i].priority == last.priority && r[i].number < last.number)
      {
        assert r[i] in multiset(r);
        if r[i] != w {
          assert r[i] in multiset(init);
          assert r[i] in init;
        }
      }
    }
  }

  /** A line is left as it is by sorting. */
  lemma {:induction false} SortKeepsLine(queue: seq<Waiter>)
    requires InLine(queue)
    ensures SortDesc(queue, ByPriority()) == queue
  {
    if queue != [] {
      var init, last := queue[..|queue| - 1], queue[|queue| - 1];
      SortKeepsLine(init);
      assert queue == init + [last];
    }
  }

  lemma EnqueuedInLine(queue: seq<Waiter>, w: Waiter)
    requires InLine(queue) && NumbersBelow(queue, w.number)
    ensures InLine(Enqueued(queue, w)) && NumbersBelow(Enqueued(queue, w), w.number + 1)
  {
    var sorted := Enqueued(queue, w);
    SameKey(queue + [w]);
    SortKeepsLine(queue);
    assert (queue + [w])[..|queue|] == queue;
    InsertKeepsLine(queue, w);
    InsertDescPermutes(queue, w, ByPriority());
    forall i | 0 <= i < |sorted| ensures sorted[i].number < w.number + 1 {
      assert sorted[i] in multiset(sorted);
      assert sorted[i] == w || sorted[i] in multiset(queue);
    }
  }

  lemma SameKey(queue: seq<Waiter>)
    ensures SortDesc(queue, (x: Waiter) => x.priority as real) == SortDesc(queue, ByPriority())
  {
  }

  ghost predicate WaitOk(p: PoolState) { InLine(p.waitQueue) && NumbersBelow(p.waitQueue, p.waiters) }

  lemma AcquireKeepsLine(cfg: Config, p: PoolState, priority: int)
    requires WaitOk(p)
    ensures WaitOk(AcquireStep(cfg, p, priority).0)
  {
    EnqueuedInLine(p.waitQueue, Waiter(p.waiters, priority));
  }

  lemma {:induction false} DestroyAllKeepsLine(p: PoolState, ids: seq<Id>)
    ensures DestroyAll(p, ids).waitQueue == p.waitQueue && DestroyAll(p, ids).waiters == p.waiters
  {
    if ids != [] {
      DestroyAllKeepsLine(p, ids[..|ids| - 1]);
    }
  }

  lemma StepKeepsLine(cfg: Config, s: System, l: Label)
    requires SystemOk(s) && Enabled(s, l) && WaitOk(s.pool)
    ensures WaitOk(Step(cfg, s, l).pool)
  {
    match l
    case Acquire(_, priority) => AcquireKeepsLine(cfg, s.pool, priority);
    case Shutdown =>
      DestroyAllKeepsLine(s.pool.(isShuttingDown := true, idleTimers := {}, waitQueue := []), s.pool.agents.keys);
    case _ =>
  }

  /** In every run those who wait stand in line by priority, first come first among equals. */
  lemma {:induction false} WaitersStandInLine(cfg: Config, labels: seq<Label>, states: seq<System>, k: nat)
    requires IsRun(cfg, labels, states) && k < |states|
    ensures WaitOk(states[k].pool)
  {
    if k > 0 {
      WaitersStandInLine(cfg, labels, states, k - 1);
      PartitionHolds(cfg, labels, states, k - 1);
      assert Enabled(states[k - 1], labels[k - 1]);
      StepKeepsLine(cfg, states[k - 1], labels[k - 1]);
    }
  }

  /** And nobody leaves the line but by a timeout or the shutdown, though agents are released. */
  lemma WaitersOnlyTimeOut(cfg: Config, s: System, l: Label, w: Waiter)
    requires SystemOk(s) && Enabled(s, l) && w in s.pool.waitQueue && !l.WaiterTimeout? && !l.Shutdown?
    ensures w in Step(cfg, s, l).pool.waitQueue
  {
    if l.Acquire? {
      var queue := s.pool.waitQueue + [Waiter(s.pool.waiters, l.priority)];
      var sorted := SortDesc(queue, (x: Waiter) => x.priority as real);
      SortDescPermutes(queue, (x: Waiter) => x.priority as real);
      SameMultisetSameMembers(queue, sorted);
      assert w in queue;
    }
  }
}
