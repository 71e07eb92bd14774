/**
 src/agents/pool.js over whole runs: at every await point, under every interleaving, the agents are
 those available and those acquired, and idle timers run only for available ones.
 */
module PoolRuns {
  import opened JsCollections
  import opened Pool

  /** One call of acquire, whose caller may then hold an agent, and may call release any number of times. */
  datatype Caller = Caller(number: nat)

  /** What a call that is suspended will do next. */
  datatype Pending =
    | CreatingForAcquire(caller: Caller)
    | CreatingForInit
    | CreatingForScaleUp(left: nat)
    | CreatedForAcquire(caller: Caller, id: Id)
    | Removing(ids: seq<Id>)
    | Closing

  /**
   `born` are the ids the lifecycle has handed out; `holds` says which
   agent a caller was given and has not released itself.
   */
  datatype System = System(
    pool: PoolState, pending: seq<Pending>, born: set<Id>, callers: set<Caller>, holds: map<Caller, Id>)

  datatype Label =
    | Initialize
    | Acquire(caller: Caller, priority: int)
    | Born(i: nat, id: Id)
    | BirthFailed(i: nat)
    | Grant(i: nat)
    | Release(caller: Caller, id: Id)
    | ScaleUp(count: int)
    | ScaleDown(count: int)
    | RemoveNext(i: nat)
    | IdleTimeout(id: Id)
    | WaiterTimeout(i: nat)
    | Shutdown
    | Close(i: nat)

  predicate IsCreating(x: Pending) { x.CreatingForAcquire? || x.CreatingForInit? || x.CreatingForScaleUp? }

  /** The continuation after an agent was created: acquire goes on in a later turn, scaleUp creates the next one. */
  function AfterBirth(pending: seq<Pending>, i: nat, id: Id): seq<Pending>
    requires i < |pending|
  {
    match pending[i]
    case CreatingForAcquire(caller) => pending[i := CreatedForAcquire(caller, id)]
    case CreatingForScaleUp(left) => if left > 1 then pending[i := CreatingForScaleUp(left - 1)]
      else RemoveAt(pending, i)
    case _ => RemoveAt(pending, i)
  }

  function Times(n: nat): seq<Pending> { seq(n, _ => CreatingForInit) }

  function RemoveFirst(p: PoolState, ids: seq<Id>): (PoolState, seq<Pending>) {
    if ids == [] then (p, []) else (DestroyStep(p, ids[0]), if |ids| > 1 then [Removing(ids[1..])] else [])
  }

  predicate Enabled(s: System, l: Label) {
    match l
    case Acquire(caller, _) => caller !in s.callers
    case Born(i, id) => i < |s.pending| && IsCreating(s.pending[i]) && id !in s.born
    case BirthFailed(i) => i < |s.pending| && IsCreating(s.pending[i])
    case Grant(i) => i < |s.pending| && s.pending[i].CreatedForAcquire?
    case RemoveNext(i) => i < |s.pending| && s.pending[i].Removing?
    case WaiterTimeout(i) => i < |s.pool.waitQueue|
    case IdleTimeout(id) => id in s.pool.idleTimers
    case Close(i) => i < |s.pending| && s.pending[i].Closing?
    case _ => true
  }

  function Step(cfg: Config, s: System, l: Label): System
    requires Enabled(s, l)
  {
    match l
    case Initialize => if s.pool.isShuttingDown then s else s.(pending := s.pending + Times(cfg.minPoolSize))
    case Acquire(caller, priority) =>
      var (p, r) := AcquireStep(cfg, s.pool, priority);
      s.(pool := p, callers := s.callers + {caller},
         pending := if r.MustCreate? then s.pending + [CreatingForAcquire(caller)] else s.pending,
         holds := if r.Granted? then s.holds[caller := r.id] else s.holds)
    case Born(i, id) =>
      s.(pool := AddStep(s.pool, id), pending := AfterBirth(s.pending, i, id), born := s.born + {id})
    case BirthFailed(i) => s.(pending := RemoveAt(s.pending, i))
    case Grant(i) =>
      s.(pool := TakeStep(s.pool, s.pending[i].id), pending := RemoveAt(s.pending, i),
         holds := s.holds[s.pending[i].caller := s.pending[i].id])
    case Release(caller, id) =>
      s.(pool := ReleaseStep(s.pool, id), holds := if (caller, id) in s.holds.Items then s.holds - {caller}
        else s.holds)
    case ScaleUp(count) =>
      var n := ToAdd(cfg, s.pool, count);
      if n <= 0 then s else s.(pending := s.pending + [CreatingForScaleUp(n)])
    case ScaleDown(count) =>
      var (p, more) := RemoveFirst(s.pool, ToRemove(cfg, s.pool, count));
      s.(pool := p, pending := s.pending + more)
    case RemoveNext(i) =>
      var (p, more) := RemoveFirst(s.pool, s.pending[i].ids);
      s.(pool := p, pending := RemoveAt(s.pending, i) + more)
    case IdleTimeout(id) => s.(pool := IdleStep(cfg, s.pool, id))
    case WaiterTimeout(i) => s.(pool := s.pool.(waitQueue := RemoveAt(s.pool.waitQueue, i)))
    case Shutdown =>
      if s.pool.isShuttingDown then s else s.(pool := ShutdownStep(s.pool), pending := s.pending + [Closing])
    case Close(i) => s.(pool := CloseStep(s.pool), pending := RemoveAt(s.pending, i))
  }

  const INITIAL: System := System(FRESH, [], {}, {}, map[])

  ghost predicate IsRun(cfg: Config, labels: seq<Label>, states: seq<System>) {
    && |states| == |labels| + 1 && states[0] == INITIAL
    && forall k :: 0 <= k < |labels| ==>
      Enabled(states[k], labels[k]) && states[k + 1] == Step(cfg, states[k], labels[k])
  }

  /** The state at some await point of some run. */
  ghost predicate Reachable(cfg: Config, s: System) {
    exists labels, states :: IsRun(cfg, labels, states) && states[|labels|] == s
  }

  lemma InitialIsReachable(cfg: Config)
    ensures Reachable(cfg, INITIAL)
  {
    assert IsRun(cfg, [], [INITIAL]);
  }

  lemma StepIsReachable(cfg: Config, s: System, l: Label)
    requires Reachable(cfg, s) && Enabled(s, l)
    ensures Reachable(cfg, Step(cfg, s, l))
  {
    var labels, states :| IsRun(cfg, labels, states) && states[|labels|] == s;
    assert IsRun(cfg, labels + [l], states + [Step(cfg, s, l)]);
  }

  // ---------- The partition ----------

  type Agents = JsMap<Id, Pooled>

  /** Every agent of the pool is available or acquired, never both; timers run only for available agents. */
  ghost predicate Partitioned(agents: Agents, available: seq<Id>, idleTimers: set<Id>) {
    && NoDup(available)
    && (forall id :: id in available <==> id in agents.vals && !agents.vals[id].acquired)
    && (forall id :: id in idleTimers ==> id in available)
  }

  ghost predicate AllActive(agents: Agents) { forall id :: id in agents.vals ==> agents.vals[id].state == ACTIVE }

  ghost predicate PoolOk(p: PoolState) {
    Partitioned(p.agents, p.available, p.idleTimers) && AllActive(p.agents) && p.served == 0
  }

  lemma AppendNoDup<T>(s: seq<T>, x: T)
    requires NoDup(s) && x !in s
    ensures NoDup(s + [x])
  {
  }

  lemma TakeKeepsPool(p: PoolState, id: Id)
    requires PoolOk(p)
    ensures PoolOk(TakeStep(p, id))
  {
    WithoutNoDup(p.available, id);
    WithoutMembers(p.available, id);
  }

  lemma AddKeepsPool(p: PoolState, id: Id)
    requires PoolOk(p)
    ensures PoolOk(AddStep(p, id))
  {
    if id !in p.available {
      AppendNoDup(p.available, id);
    }
  }

  lemma DestroyKeepsPool(p: PoolState, id: Id)
    requires PoolOk(p)
    ensures PoolOk(DestroyStep(p, id))
  {
    WithoutNoDup(p.available, id);
    WithoutMembers(p.available, id);
  }

  lemma FreeKeepsPool(p: PoolState, id: Id, taskCount: nat)
    requires PoolOk(p) && p.agents.Has(id) && p.agents.vals[id].acquired
    ensures PoolOk(p.(agents := p.agents.Set(id, Pooled(ACTIVE, false, taskCount)), available :=
      p.available + [id], idleTimers := p.idleTimers + {id}))
  {
    assert id !in p.available;
    AppendNoDup(p.available, id);
  }

  lemma DestroyAcquiredKeepsPool(p: PoolState, id: Id, a: Pooled)
    requires PoolOk(p) && p.agents.Has(id) && p.agents.vals[id].acquired
    ensures PoolOk(DestroyStep(p.(agents := p.agents.Set(id, a)), id))
  {
    assert id !in p.available;
    WithoutAbsent(p.available, id);
  }

  lemma ReleaseKeepsPool(p: PoolState, id: Id)
    requires PoolOk(p)
    ensures PoolOk(ReleaseStep(p, id))
  {
    if p.agents.Has(id) && p.agents.vals[id].acquired {
      var a := p.agents.vals[id];
      if p.isShuttingDown {
        DestroyAcquiredKeepsPool(p, id, a.(acquired := false, taskCount := a.taskCount + 1));
      } else {
        FreeKeepsPool(p, id, a.taskCount + 1);
      }
    }
  }

  lemma {:induction false} DestroyAllKeepsPool(p: PoolState, ids: seq<Id>)
    requires PoolOk(p)
    ensures PoolOk(DestroyAll(p, ids))
  {
    if ids != [] {
      DestroyAllKeepsPool(p, ids[..|ids| - 1]);
      DestroyKeepsPool(DestroyAll(p, ids[..|ids| - 1]), ids[|ids| - 1]);
    }
  }

  lemma AcquireKeepsPool(cfg: Config, p: PoolState, priority: int)
    requires PoolOk(p)
    ensures PoolOk(AcquireStep(cfg, p, priority).0)
  {
    var first := FirstUsable(p, |p.available|);
    if first.Some? {
      TakeKeepsPool(p, first.value);
    }
  }

  lemma RemoveFirstKeepsPool(p: PoolState, ids: seq<Id>)
    requires PoolOk(p)
    ensures PoolOk(RemoveFirst(p, ids).0)
  {
    if ids != [] {
      DestroyKeepsPool(p, ids[0]);
    }
  }

  lemma CloseKeepsPool(p: PoolState)
    requires PoolOk(p) && p.idleTimers == {}
    ensures PoolOk(CloseStep(p))
  {
  }

  /** No timer runs once the pool is shutting down, and only then is it closed. */
  ghost predicate SystemOk(s: System) {
    && PoolOk(s.pool) && (s.pool.isShuttingDown ==> s.pool.idleTimers == {})
    && (forall i :: 0 <= i < |s.pending| && s.pending[i].Closing? ==> s.pool.isShuttingDown)
  }

  lemma {:induction false} DestroyAllKeepsTimers(p: PoolState, ids: seq<Id>)
    requires p.idleTimers == {}
    ensures DestroyAll(p, ids).idleTimers == {} && DestroyAll(p, ids).isShuttingDown == p.isShuttingDown
  {
    if ids != [] {
      DestroyAllKeepsTimers(p, ids[..|ids| - 1]);
    }
  }

  lemma ShutdownKeepsPool(p: PoolState)
    requires PoolOk(p)
    ensures PoolOk(ShutdownStep(p))
    ensures !p.isShuttingDown ==> ShutdownStep(p).isShuttingDown && ShutdownStep(p).idleTimers == {}
  {
    var q := p.(isShuttingDown := true, idleTimers := {}, waitQueue := []);
    DestroyAllKeepsPool(q, p.agents.keys);
    DestroyAllKeepsTimers(q, p.agents.keys);
  }

  lemma StepKeepsPool(cfg: Config, s: System, l: Label)
    requires SystemOk(s) && Enabled(s, l)
    ensures PoolOk(Step(cfg, s, l).pool)
  {
    match l
    case Acquire(_, priority) => AcquireKeepsPool(cfg, s.pool, priority);
    case Born(i, id) => AddKeepsPool(s.pool, id);
    case Grant(i) => TakeKeepsPool(s.pool, s.pending[i].id);
    case Release(_, id) => ReleaseKeepsPool(s.pool, id);
    case ScaleDown(count) => RemoveFirstKeepsPool(s.pool, ToRemove(cfg, s.pool, count));
    case RemoveNext(i) => RemoveFirstKeepsPool(s.pool, s.pending[i].ids);
    case IdleTimeout(id) => DestroyKeepsPool(s.pool, id);
    case Shutdown => ShutdownKeepsPool(s.pool);
    case Close(i) => CloseKeepsPool(s.pool);
    case _ =>
  }

  /** Which fields of the pool say that it is shutting down, and what a step does to them. */
  lemma StepKeepsTimers(cfg: Config, s: System, l: Label)
    requires SystemOk(s) && Enabled(s, l)
    ensures var p := Step(cfg, s, l).pool;
      (p.isShuttingDown <==> s.pool.isShuttingDown || l.Shutdown?) && (p.isShuttingDown ==> p.idleTimers == {})
  {
    if l.Shutdown? {
      ShutdownKeepsPool(s.pool);
    }
  }

  lemma StepKeepsClosing(cfg: Config, s: System, l: Label)
    requires SystemOk(s) && Enabled(s, l)
    ensures var s' := Step(cfg, s, l);
      forall i :: 0 <= i < |s'.pending| && s'.pending[i].Closing? ==> s.pool.isShuttingDown || l.Shutdown?
  {
  }

  lemma StepKeepsOk(cfg: Config, s: System, l: Label)
    requires SystemOk(s) && Enabled(s, l)
    ensures SystemOk(Step(cfg, s, l))
  {
    StepKeepsPool(cfg, s, l);
    StepKeepsTimers(cfg, s, l);
    StepKeepsClosing(cfg, s, l);
  }

  /**
   At every await point of every run the agents are partitioned into available and acquired, timers run
   only for available agents, and no waiter has ever been handed an agent.
   */
  lemma {:induction false} PartitionHolds(cfg: Config, labels: seq<Label>, states: seq<System>, k: nat)
    requires IsRun(cfg, labels, states) && k < |states|
    ensures SystemOk(states[k])
  {
    if k > 0 {
      PartitionHolds(cfg, labels, states, k - 1);
      assert Enabled(states[k - 1], labels[k - 1]);
      StepKeepsOk(cfg, states[k - 1], labels[k - 1]);
    }
  }

  lemma ReachableIsOk(cfg: Config, s: System)
    requires Reachable(cfg, s)
    ensures SystemOk(s)
  {
    var labels, states :| IsRun(cfg, labels, states) && states[|labels|] == s;
    PartitionHolds(cfg, labels, states, |labels|);
  }

  // ---------- Ids are handed out before they are used ----------

  ghost predicate BornOk(s: System) {
    && (forall id :: id in s.pool.agents.vals ==> id in s.born)
    && (forall i :: 0 <= i < |s.pending| && s.pending[i].CreatedForAcquire? ==> s.pending[i].id in s.born)
    && (forall c :: c in s.holds ==> s.holds[c] in s.born)
  }

  lemma DestroyFewer(p: PoolState, x: Id)
    ensures forall id :: id in DestroyStep(p, x).available ==> id in p.available
    ensures forall id :: id in DestroyStep(p, x).agents.vals ==> id in p.agents.vals
  {
    WithoutMembers(p.available, x);
  }

  lemma {:induction false} DestroyAllFewer(p: PoolState, ids: seq<Id>)
    ensures forall id :: id in DestroyAll(p, ids).available ==> id in p.available
    ensures forall id :: id in DestroyAll(p, ids).agents.vals ==> id in p.agents.vals
  {
    if ids != [] {
      DestroyAllFewer(p, ids[..|ids| - 1]);
      DestroyFewer(DestroyAll(p, ids[..|ids| - 1]), ids[|ids| - 1]);
    }
  }

  lemma StepAddsBornOnly(cfg: Config, s: System, l: Label)
    requires Enabled(s, l)
    ensures var s' := Step(cfg, s, l);
      forall id :: id in s'.pool.agents.vals ==> id in s.pool.agents.vals || id in s'.born
  {
    if l.Shutdown? {
      DestroyAllFewer(s.pool.(isShuttingDown := true, idleTimers := {}, waitQueue := []), s.pool.agents.keys);
    }
  }

  lemma StepKeepsPendingBorn(cfg: Config, s: System, l: Label)
    requires Enabled(s, l) && BornOk(s)
    ensures var s' := Step(cfg, s, l);
      forall i :: 0 <= i < |s'.pending| && s'.pending[i].CreatedForAcquire? ==> s'.pending[i].id in s'.born
  {
  }

  lemma StepKeepsBorn(cfg: Config, s: System, l: Label)
    requires Enabled(s, l) && BornOk(s) && SystemOk(s)
    ensures BornOk(Step(cfg, s, l))
  {
    StepAddsBornOnly(cfg, s, l);
    StepKeepsPendingBorn(cfg, s, l);
  }

  lemma {:induction false} RunKeepsBorn(cfg: Config, labels: seq<Label>, states: seq<System>, k: nat)
    requires IsRun(cfg, labels, states) && k < |states|
    ensures BornOk(states[k])
  {
    if k > 0 {
      RunKeepsBorn(cfg, labels, states, k - 1);
      PartitionHolds(cfg, labels, states, k - 1);
      assert Enabled(states[k - 1], labels[k - 1]);
      StepKeepsBorn(cfg, states[k - 1], labels[k - 1]);
    }
  }

  lemma ReachableIsBorn(cfg: Config, s: System)
    requires Reachable(cfg, s)
    ensures BornOk(s)
  {
    var labels, states :| IsRun(cfg, labels, states) && states[|labels|] == s;
    RunKeepsBorn(cfg, labels, states, |labels|);
  }

  /** The lifecycle never runs out of ids. */
  lemma LongerThanAll(ids: set<Id>) returns (n: nat)
    ensures forall id :: id in ids ==> |id| < n
  {
    n := 0;
    var todo := ids;
    while todo != {}
      invariant todo <= ids && forall id :: id in ids && id !in todo ==> |id| < n
      decreases |todo|
    {
      var id :| id in todo;
      todo := todo - {id};
      n := Max(n, |id| + 1);
    }
  }

  lemma FreshId(ids: set<Id>) returns (id: Id)
    ensures id !in ids
  {
    var n := LongerThanAll(ids);
    id := seq(n, _ => '0');
  }
}
