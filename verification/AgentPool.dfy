/**
 src/agents/pool.js, the class: the part of each operation that runs without interruption, as it
 changes the Maps and Sets in place, each equal to the step that Pool specifies.
 */
module AgentPools {
  import opened JsCollections
  import opened Pool

  class AgentPool {
    const cfg: Config
    var agents: JsMap<Id, Pooled>
    var availableAgents: seq<Id>
    var idleTimers: set<Id>
    var waitQueue: seq<Waiter>
    var waiters: nat
    var isShuttingDown: bool
    ghost var served: nat

    ghost function State(): PoolState
      reads this
    {
      PoolState(agents, availableAgents, idleTimers, waitQueue, waiters, served, isShuttingDown)
    }

    constructor (cfg: Config)
      ensures this.cfg == cfg && State() == FRESH
    {
      this.cfg := cfg;
      agents, availableAgents, idleTimers := EmptyMap(), [], {};
      waitQueue, waiters, served, isShuttingDown := [], 0, 0, false;
    }

    /** The loop of _getAvailableAgent; the idle timer of the agent found is cleared. */
    method GetAvailableAgent() returns (r: Option<Id>)
      modifies this`idleTimers
      ensures r == FirstUsable(old(State()), |availableAgents|)
      ensures idleTimers == if r.Some? then old(idleTimers) - {r.value} else old(idleTimers)
    {
      for i := 0 to |availableAgents|
        invariant FirstUsable(State(), i) == None && idleTimers == old(idleTimers)
      {
        var agentId := availableAgents[i];
        if agents.Has(agentId) {
          var agent := agents.vals[agentId];
          if !agent.acquired && (agent.state == READY || agent.state == ACTIVE) {
            FirstStays(State(), i + 1, |availableAgents|);
            idleTimers := idleTimers - {agentId};
            return Some(agentId);
          }
        }
      }
      return None;
    }

    method AcquireAgent(id: Id)
      modifies this`agents, this`availableAgents, this`idleTimers
      ensures State() == TakeStep(old(State()), id)
    {
      availableAgents := Without(availableAgents, id);
      if id in idleTimers {
        idleTimers := idleTimers - {id};
      }
      if agents.Has(id) {
        agents := agents.Set(id, agents.vals[id].(acquired := true));
      }
    }

    /** What _createAgent does once the lifecycle has created the agent. */
    method AddAgent(id: Id)
      modifies this`agents, this`availableAgents
      ensures State() == AddStep(old(State()), id)
    {
      agents := agents.Set(id, Pooled(ACTIVE, false, 0));
      if id !in availableAgents {
        availableAgents := availableAgents + [id];
      }
    }

    method DestroyAgent(id: Id)
      modifies this`agents, this`availableAgents, this`idleTimers
      ensures State() == DestroyStep(old(State()), id)
    {
      if !agents.Has(id) {
        return;
      }
      if id in idleTimers {
        idleTimers := idleTimers - {id};
      }
      availableAgents := Without(availableAgents, id);
      agents := agents.Delete(id);
    }

    method Acquire(priority: int) returns (r: Acquisition)
      modifies this
      ensures (State(), r) == AcquireStep(cfg, old(State()), priority)
    {
      if isShuttingDown {
        return Refused;
      }
      var agent := GetAvailableAgent();
      if agent.Some? {
        TimerClearedTwice(old(State()), agent.value);
        AcquireAgent(agent.value);
        return Granted(agent.value);
      }
      if agents.Size() < cfg.maxPoolSize {
        return MustCreate;
      }
      waitQueue := Enqueued(waitQueue, Waiter(waiters, priority));
      waiters := waiters + 1;
      return MustWait;
    }

    method Release(id: Id)
      modifies this
      ensures State() == ReleaseStep(old(State()), id)
    {
      if !agents.Has(id) {
        return;
      }
      var agent := agents.vals[id];
      if !agent.acquired {
        return;
      }
      agent := agent.(acquired := false, taskCount := agent.taskCount + 1);
      agents := agents.Set(id, agent);
      if waitQueue != [] && agent.state == READY {
        waitQueue := waitQueue[1..];
        agents := agents.Set(id, agent.(acquired := true));
        served := served + 1;
        SetTwice(old(agents), id, agent, agent.(acquired := true));
        return;
      }
      if (agent.state == READY || agent.state == ACTIVE) && !isShuttingDown {
        if id !in availableAgents {
          availableAgents := availableAgents + [id];
        }
        idleTimers := idleTimers + {id};
      } else {
        DestroyAgent(id);
      }
    }

    method HandleIdleTimeout(id: Id)
      modifies this`agents, this`availableAgents, this`idleTimers
      ensures State() == IdleStep(cfg, old(State()), id)
    {
      if !agents.Has(id) || agents.vals[id].acquired {
        return;
      }
      if agents.Size() > cfg.minPoolSize {
        DestroyAgent(id);
      }
    }

    /** How many agents scaleUp is about to create. */
    method PlanScaleUp(count: int) returns (toAdd: int)
      ensures toAdd == ToAdd(cfg, State(), count)
    {
      if isShuttingDown {
        return 0;
      }
      toAdd := Min(count, cfg.maxPoolSize - agents.Size());
    }

    /** Which agents scaleDown is about to destroy. */
    method PlanScaleDown(count: int) returns (ids: seq<Id>)
      ensures ids == ToRemove(cfg, State(), count)
    {
      var toRemove := Min(Min(count, |availableAgents|), agents.Size() - cfg.minPoolSize);
      if toRemove <= 0 {
        return [];
      }
      ids := availableAgents[..toRemove];
    }

    method Shutdown()
      modifies this
      ensures State() == ShutdownStep(old(State()))
    {
      if isShuttingDown {
        return;
      }
      isShuttingDown := true;
      idleTimers := {};
      while waitQueue != []
        invariant State() == old(State()).(isShuttingDown := true, idleTimers := {}, waitQueue := waitQueue)
        decreases |waitQueue|
      {
        waitQueue := waitQueue[1..];
      }
      ghost var stopped := State();
      var ids := agents.keys;
      for i := 0 to |ids|
        invariant State() == DestroyAll(stopped, ids[..i])
      {
        assert ids[..i + 1][..i] == ids[..i];
        DestroyAgent(ids[i]);
      }
      assert ids[..|ids|] == ids;
    }
  }

  lemma {:induction false} FirstStays(p: PoolState, n: nat, m: nat)
    requires n <= m <= |p.available| && FirstUsable(p, n).Some?
    ensures FirstUsable(p, m) == FirstUsable(p, n)
    decreases m
  {
    if n < m {
      FirstStays(p, n, m - 1);
    }
  }

  lemma TimerClearedTwice(p: PoolState, id: Id)
    ensures TakeStep(p.(idleTimers := p.idleTimers - {id}), id) == TakeStep(p, id)
  {
    assert p.idleTimers - {id} - {id} == p.idleTimers - {id};
  }

  lemma SetTwice(agents: JsMap<Id, Pooled>, id: Id, a: Pooled, b: Pooled)
    requires agents.Has(id)
    ensures agents.Set(id, a).Set(id, b) == agents.Set(id, b)
  {
    assert agents.vals[id := a][id := b] == agents.vals[id := b];
  }
}
