/**
 src/agents/pool.js: what the pool does between two awaits. Every async operation is cut at its await
 points; what is left to do after one is a pending continuation.
 */
module Pool {
  import opened JsCollections

  type Id = string

  datatype Lifecycle = READY | ACTIVE | ERROR

  /** `state` is the copy made when the agent was created. */
  datatype Pooled = Pooled(state: Lifecycle, acquired: bool, taskCount: nat)

  datatype Waiter = Waiter(number: nat, priority: int)

  /** `idleTimers` are the keys of that Map. `served` counts waiters that were handed an agent. */
  datatype PoolState = PoolState(
    agents: JsMap<Id, Pooled>, available: seq<Id>, idleTimers: set<Id>, waitQueue: seq<Waiter>, waiters: nat,
      served: nat, isShuttingDown: bool)

  const FRESH: PoolState := PoolState(EmptyMap(), [], {}, [], 0, 0, false)

  datatype Config = Config(minPoolSize: nat, maxPoolSize: int)

  predicate Usable(p: PoolState, id: Id) {
    p.agents.Has(id) && !p.agents.vals[id].acquired && p.agents.vals[id].state != ERROR
  }

  /** The first usable agent among the first n available ones. */
  function FirstUsable(p: PoolState, n: nat): (r: Option<Id>)
    requires n <= |p.available|
    ensures r.Some? ==> Usable(p, r.value) && r.value in p.available
    ensures r.None? ==> forall i :: 0 <= i < n ==> !Usable(p, p.available[i])
  {
    if n == 0 then None
    else
      var before := FirstUsable(p, n - 1);
      if before.Some? then before else if Usable(p, p.available[n - 1]) then Some(p.available[n - 1]) else None
  }

  // ---------- _acquireAgent, _createAgent, _destroyAgent ----------

  /** The agent may have left the pool by now; it is marked all the same, but not in the pool. */
  function TakeStep(p: PoolState, id: Id): PoolState {
    p.(available := Without(p.available, id), idleTimers := p.idleTimers - {id},
       agents := if p.agents.Has(id) then p.agents.Set(id, p.agents.vals[id].(acquired := true)) else p.agents)
  }

  /** Once the lifecycle has created the agent, which leaves it ACTIVE. */
  function AddStep(p: PoolState, id: Id): PoolState {
    p.(agents := p.agents.Set(id, Pooled(ACTIVE, false, 0)), available := if id in p.available then p.available
      else p.available + [id])
  }

  /** Up to the await. */
  function DestroyStep(p: PoolState, id: Id): PoolState {
    if !p.agents.Has(id) then p
    else p.(idleTimers := p.idleTimers - {id}, available := Without(p.available, id), agents := p.agents.Delete(id))
  }

  // ---------- release ----------

  function ReleaseStep(p: PoolState, id: Id): PoolState {
    if !p.agents.Has(id) || !p.agents.vals[id].acquired then p
    else
      var a := p.agents.vals[id];
      var free := a.(acquired := false, taskCount := a.taskCount + 1);
      if p.waitQueue != [] && a.state == READY then
        p.(agents := p.agents.Set(id, free.(acquired := true)), waitQueue := p.waitQueue[1..], served := p.served + 1)
      else if a.state != ERROR && !p.isShuttingDown then
        p.(agents := p.agents.Set(id, free), available := if id in p.available then p.available else p.available + [id],
           idleTimers := p.idleTimers + {id})
      else DestroyStep(p.(agents := p.agents.Set(id, free)), id)
  }

  // ---------- acquire ----------

  datatype Acquisition = Granted(id: Id) | MustCreate | MustWait | Refused

  /** waitQueue.push and the stable sort by priority. */
  function Enqueued(queue: seq<Waiter>, w: Waiter): seq<Waiter> {
    SortDesc(queue + [w], (x: Waiter) => x.priority as real)
  }

  /** Up to the first await. */
  function AcquireStep(cfg: Config, p: PoolState, priority: int): (PoolState, Acquisition) {
    if p.isShuttingDown then (p, Refused)
    else
      match FirstUsable(p, |p.available|)
      case Some(id) => (TakeStep(p, id), Granted(id))
      case None =>
        if p.agents.Size() < cfg.maxPoolSize then (p, MustCreate)
        else (p.(waitQueue := Enqueued(p.waitQueue, Waiter(p.waiters, priority)), waiters := p.waiters + 1), MustWait)
  }

  // ---------- Scaling ----------

  /** How many agents scaleUp sets out to create. */
  function ToAdd(cfg: Config, p: PoolState, count: int): int {
    if p.isShuttingDown then 0 else Min(count, cfg.maxPoolSize - p.agents.Size())
  }

  /** Which agents scaleDown sets out to destroy. */
  function ToRemove(cfg: Config, p: PoolState, count: int): seq<Id> {
    var n := Min(Min(count, |p.available|), p.agents.Size() - cfg.minPoolSize);
    if n <= 0 then [] else p.available[..n]
  }

  function IdleStep(cfg: Config, p: PoolState, id: Id): PoolState {
    if !p.agents.Has(id) || p.agents.vals[id].acquired || p.agents.Size() <= cfg.minPoolSize then p
      else DestroyStep(p, id)
  }

  // ---------- shutdown ----------

  function DestroyAll(p: PoolState, ids: seq<Id>): PoolState {
    if ids == [] then p else DestroyStep(DestroyAll(p, ids[..|ids| - 1]), ids[|ids| - 1])
  }

  /** Up to the await: timers are cleared, waiters rejected, and every agent leaves the pool. */
  function ShutdownStep(p: PoolState): PoolState {
    if p.isShuttingDown then p
    else DestroyAll(p.(isShuttingDown := true, idleTimers := {}, waitQueue := []), p.agents.keys)
  }

  function CloseStep(p: PoolState): PoolState { p.(agents := EmptyMap(), available := []) }
}
