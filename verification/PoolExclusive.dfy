/**
 src/agents/pool.js: who uses which agent. An agent can come to be used by two callers in two ways: acquire
 does not check that the agent it created is still free, and release does not check who releases. These
 are the only ways, under every interleaving.
 */
module PoolExclusive {
  import opened JsCollections
  import opened Pool
  import opened PoolRuns
  import opened PoolBounds

  /** Nobody shares an agent, and nobody uses an available one. */
  ghost predicate Exclusive(s: System) {
    && (forall c, d :: c in s.holds && d in s.holds && c != d ==> s.holds[c] != s.holds[d])
    && (forall c :: c in s.holds ==> s.holds[c] !in s.pool.available)
  }

  /** An acquired agent is used by somebody. */
  ghost predicate Owned(s: System) {
    forall id :: id in s.pool.agents.vals && s.pool.agents.vals[id].acquired ==> id in s.holds.Values
  }

  function CallerOf(x: Pending): Option<Caller> {
    match x
    case CreatingForAcquire(c) => Some(c)
    case CreatedForAcquire(c, _) => Some(c)
    case _ => None
  }

  /** A caller waits for one agent, and uses none meanwhile. */
  ghost predicate CallersOk(s: System) { UsersKnown(s) && WaitersKnown(s) && WaitersDistinct(s.pending) }

  ghost predicate UsersKnown(s: System) { forall c :: c in s.holds ==> c in s.callers }

  ghost predicate WaitersKnown(s: System) {
    forall i :: 0 <= i < |s.pending| && CallerOf(s.pending[i]).Some? ==>
      CallerOf(s.pending[i]).value in s.callers && CallerOf(s.pending[i]).value !in s.holds
  }

  ghost predicate WaitersDistinct(pending: seq<Pending>) {
    forall i, j :: 0 <= i < j < |pending| && CallerOf(pending[i]).Some? ==> CallerOf(pending[i]) != CallerOf(pending[j])
  }

  ghost predicate UseOk(s: System) { SystemOk(s) && BornOk(s) && CallersOk(s) }

  /** The two checks that are missing: is the created agent still nobody's, and is it the user who releases? */
  predicate Proper(s: System, l: Label)
    requires Enabled(s, l)
  {
    match l
    case Grant(i) => s.pending[i].id !in s.holds.Values
    case Release(c, id) =>
      s.pool.isShuttingDown || !s.pool.agents.Has(id) || !s.pool.agents.vals[id].acquired || (c, id) in s.holds.Items
    case _ => true
  }

  // ---------- One step ----------

  lemma StepKeepsWaitersKnown(cfg: Config, s: System, l: Label)
    requires Enabled(s, l) && CallersOk(s) && !l.Born? && !l.Grant?
    ensures WaitersKnown(Step(cfg, s, l))
  {
  }

  lemma BirthKeepsWaitersKnown(cfg: Config, s: System, i: nat, id: Id)
    requires Enabled(s, Born(i, id)) && WaitersKnown(s)
    ensures WaitersKnown(Step(cfg, s, Born(i, id)))
  {
  }

  lemma GrantKeepsWaitersKnown(cfg: Config, s: System, i: nat)
    requires Enabled(s, Grant(i)) && CallersOk(s)
    ensures WaitersKnown(Step(cfg, s, Grant(i)))
  {
  }

  lemma RemoveKeepsDistinct(pending: seq<Pending>, i: nat)
    requires WaitersDistinct(pending) && i < |pending|
    ensures WaitersDistinct(RemoveAt(pending, i))
  {
  }

  lemma BirthKeepsDistinct(pending: seq<Pending>, i: nat, id: Id)
    requires WaitersDistinct(pending) && i < |pending| && IsCreating(pending[i])
    ensures WaitersDistinct(AfterBirth(pending, i, id))
  {
    RemoveKeepsDistinct(pending, i);
  }

  lemma AppendKeepsDistinct(pending: seq<Pending>, more: seq<Pending>)
    requires WaitersDistinct(pending) && forall j :: 0 <= j < |more| ==> CallerOf(more[j]) == None
    ensures WaitersDistinct(pending + more)
  {
  }

  lemma StepKeepsWaitersDistinct(cfg: Config, s: System, l: Label)
    requires Enabled(s, l) && CallersOk(s)
    ensures WaitersDistinct(Step(cfg, s, l).pending)
  {
    match l
    case Acquire(c, priority) =>
    case Born(i, id) => BirthKeepsDistinct(s.pending, i, id);
    case BirthFailed(i) => RemoveKeepsDistinct(s.pending, i);
    case Grant(i) => RemoveKeepsDistinct(s.pending, i);
    case Close(i) => RemoveKeepsDistinct(s.pending, i);
    case Initialize => AppendKeepsDistinct(s.pending, Times(cfg.minPoolSize));
    case ScaleUp(count) => AppendKeepsDistinct(s.pending, [CreatingForScaleUp(Max(ToAdd(cfg, s.pool, count), 0))]);
    case ScaleDown(count) => AppendKeepsDistinct(s.pending, RemoveFirst(s.pool, ToRemove(cfg, s.pool, count)).1);
    case RemoveNext(i) =>
      RemoveKeepsDistinct(s.pending, i);
      AppendKeepsDistinct(RemoveAt(s.pending, i), RemoveFirst(s.pool, s.pending[i].ids).1);
    case Shutdown => AppendKeepsDistinct(s.pending, [Closing]);
    case _ =>
  }

  lemma StepKeepsCallers(cfg: Config, s: System, l: Label)
    requires Enabled(s, l) && CallersOk(s)
    ensures CallersOk(Step(cfg, s, l))
  {
    match l {
      case Born(i, id) => BirthKeepsWaitersKnown(cfg, s, i, id);
      case Grant(i) => GrantKeepsWaitersKnown(cfg, s, i);
      case _ => StepKeepsWaitersKnown(cfg, s, l);
    }
    StepKeepsWaitersDistinct(cfg, s, l);
  }

  /** A caller without an agent is given one that is available or gone. */
  lemma TakeKeepsExclusiveIff(s: System, c: Caller, id: Id)
    requires Exclusive(s) && c !in s.holds
    ensures Exclusive(s.(pool := TakeStep(s.pool, id), holds := s.holds[c := id])) <==> id !in s.holds.Values
  {
    WithoutMembers(s.pool.available, id);
    var t := s.(pool := TakeStep(s.pool, id), holds := s.holds[c := id]);
    if id in s.holds.Values {
      var d :| d in s.holds && s.holds[d] == id;
      assert d in t.holds && c in t.holds && t.holds[c] == t.holds[d];
    }
  }

  lemma TakeKeepsOwned(s: System, c: Caller, id: Id)
    requires Owned(s) && c !in s.holds
    ensures Owned(s.(pool := TakeStep(s.pool, id), holds := s.holds[c := id]))
  {
    var holds := s.holds[c := id];
    forall x | x in s.holds.Values || x == id ensures x in holds.Values {
      if x != id {
        var d :| d in s.holds && s.holds[d] == x;
        assert d in holds && holds[d] == x;
      } else {
        assert c in holds && holds[c] == x;
      }
    }
  }

  lemma DropKeepsExclusive(s: System, c: Caller, p: PoolState)
    requires Exclusive(s) && forall id :: id in p.available ==> id in s.pool.available
    ensures Exclusive(s.(pool := p)) && Exclusive(s.(pool := p, holds := s.holds - {c}))
  {
  }

  lemma FreeKeepsExclusiveIff(s: System, holds: map<Caller, Id>, p: PoolState, id: Id)
    requires Exclusive(s) && (forall d :: d in holds ==> d in s.holds && holds[d] == s.holds[d])
    requires forall x :: x in p.available <==> x in s.pool.available || x == id
    ensures Exclusive(s.(pool := p, holds := holds)) <==> id !in holds.Values
  {
    if id in holds.Values {
      var d :| d in holds && holds[d] == id;
      assert holds[d] in p.available;
    }
  }

  lemma ReleaseKeepsExclusiveIff(cfg: Config, s: System, c: Caller, id: Id)
    requires SystemOk(s) && Exclusive(s) && Owned(s)
    ensures Exclusive(Step(cfg, s, Release(c, id))) <==> Proper(s, Release(c, id))
  {
    var p := ReleaseStep(s.pool, id);
    var holds := Step(cfg, s, Release(c, id)).holds;
    if !s.pool.agents.Has(id) || !s.pool.agents.vals[id].acquired {
      DropKeepsExclusive(s, c, s.pool);
    } else if s.pool.isShuttingDown {
      WithoutMembers(s.pool.available, id);
      DropKeepsExclusive(s, c, p);
    } else {
      FreeKeepsExclusiveIff(s, holds, p, id);
      HeldAfterRelease(s, c, id);
    }
  }

  /** In exclusive use, an acquired agent is still used after a release exactly when another caller released it. */
  lemma HeldAfterRelease(s: System, c: Caller, id: Id)
    requires Exclusive(s) && id in s.holds.Values
    ensures (c, id) in s.holds.Items ==> id !in (s.holds - {c}).Values
  {
  }

  lemma ReleaseKeepsOwned(cfg: Config, s: System, c: Caller, id: Id)
    requires SystemOk(s) && Exclusive(s) && Owned(s) && Proper(s, Release(c, id))
    ensures Owned(Step(cfg, s, Release(c, id)))
  {
    var t := Step(cfg, s, Release(c, id));
    forall x | x in t.pool.agents.vals && t.pool.agents.vals[x].acquired ensures x in t.holds.Values {
      var d :| d in s.holds && s.holds[d] == x;
      assert d in t.holds && t.holds[d] == x;
    }
  }

  lemma AcquireKeepsExclusive(cfg: Config, s: System, c: Caller, priority: int)
    requires Enabled(s, Acquire(c, priority)) && UseOk(s) && Exclusive(s) && Owned(s)
    ensures Exclusive(Step(cfg, s, Acquire(c, priority))) && Owned(Step(cfg, s, Acquire(c, priority)))
  {
    var first := FirstUsable(s.pool, |s.pool.available|);
    if first.Some? {
      TakeKeepsExclusiveIff(s, c, first.value);
      TakeKeepsOwned(s, c, first.value);
    }
  }

  predicate Shrinks(l: Label) { l.ScaleDown? || l.RemoveNext? || l.IdleTimeout? || l.Shutdown? || l.Close? }

  lemma {:induction false} DestroyAllKeepsOthers(p: PoolState, ids: seq<Id>)
    ensures forall id :: id in DestroyAll(p, ids).agents.vals ==>
      id in p.agents.vals && DestroyAll(p, ids).agents.vals[id] == p.agents.vals[id]
  {
    if ids != [] {
      DestroyAllKeepsOthers(p, ids[..|ids| - 1]);
    }
  }

  lemma ShrinkingDropsOnly(cfg: Config, s: System, l: Label)
    requires Enabled(s, l) && Shrinks(l)
    ensures var t := Step(cfg, s, l);
      && t.holds == s.holds && (forall id :: id in t.pool.available ==> id in s.pool.available)
      && (forall id :: id in t.pool.agents.vals ==>
        id in s.pool.agents.vals && t.pool.agents.vals[id] == s.pool.agents.vals[id])
  {
    match l
    case ScaleDown(count) =>
      var ids := ToRemove(cfg, s.pool, count);
      if ids != [] {
        DestroyFewer(s.pool, ids[0]);
      }
    case RemoveNext(i) =>
      if s.pending[i].ids != [] {
        DestroyFewer(s.pool, s.pending[i].ids[0]);
      }
    case IdleTimeout(id) => DestroyFewer(s.pool, id);
    case Shutdown =>
      var p := s.pool.(isShuttingDown := true, idleTimers := {}, waitQueue := []);
      DestroyAllFewer(p, s.pool.agents.keys);
      DestroyAllKeepsOthers(p, s.pool.agents.keys);
    case Close(i) =>
  }

  lemma OtherStepsKeepExclusive(cfg: Config, s: System, l: Label)
    requires Enabled(s, l) && BornOk(s) && Exclusive(s) && Owned(s) && !l.Acquire? && !l.Grant? && !l.Release?
    ensures Exclusive(Step(cfg, s, l)) && Owned(Step(cfg, s, l))
  {
    if Shrinks(l) {
      ShrinkingDropsOnly(cfg, s, l);
    }
  }

  /** A step keeps exclusive use exactly when a granted agent is nobody's and a released one is the releaser's. */
  lemma StepKeepsExclusiveIff(cfg: Config, s: System, l: Label)
    requires Enabled(s, l) && UseOk(s) && Exclusive(s) && Owned(s)
    ensures Exclusive(Step(cfg, s, l)) <==> Proper(s, l)
    ensures Proper(s, l) ==> Owned(Step(cfg, s, l))
  {
    match l
    case Acquire(c, priority) => AcquireKeepsExclusive(cfg, s, c, priority);
    case Grant(i) =>
      assert CallerOf(s.pending[i]).Some?;
      TakeKeepsExclusiveIff(s, s.pending[i].caller, s.pending[i].id);
      TakeKeepsOwned(s, s.pending[i].caller, s.pending[i].id);
    case Release(c, id) =>
      ReleaseKeepsExclusiveIff(cfg, s, c, id);
      if Proper(s, l) {
        ReleaseKeepsOwned(cfg, s, c, id);
      }
    case _ => OtherStepsKeepExclusive(cfg, s, l);
  }

  // ---------- Whole runs ----------

  lemma {:induction false} RunKeepsUse(cfg: Config, labels: seq<Label>, states: seq<System>, k: nat)
    requires IsRun(cfg, labels, states) && k < |states|
    ensures UseOk(states[k])
  {
    PartitionHolds(cfg, labels, states, k);
    RunKeepsBorn(cfg, labels, states, k);
    if k > 0 {
      RunKeepsUse(cfg, labels, states, k - 1);
      assert Enabled(states[k - 1], labels[k - 1]);
      StepKeepsCallers(cfg, states[k - 1], labels[k - 1]);
    }
  }

  lemma {:induction false} ProperKeepsExclusive(cfg: Config, labels: seq<Label>, states: seq<System>, k: nat)
    requires IsRun(cfg, labels, states) && k < |states|
    requires forall j :: 0 <= j < k ==> Enabled(states[j], labels[j]) && Proper(states[j], labels[j])
    ensures Exclusive(states[k]) && Owned(states[k])
  {
    if k > 0 {
      ProperKeepsExclusive(cfg, labels, states, k - 1);
      RunKeepsUse(cfg, labels, states, k - 1);
      StepKeepsExclusiveIff(cfg, states[k - 1], labels[k - 1]);
    }
  }

  /**
   Under every interleaving, agents are in exclusive use throughout exactly when each created agent is
   nobody's as it is granted, and each acquired one is released by its user (until the pool shuts down).
   */
  lemma ExclusiveIffProper(cfg: Config, labels: seq<Label>, states: seq<System>)
    requires IsRun(cfg, labels, states)
    ensures (forall k :: 0 <= k < |states| ==> Exclusive(states[k]))
      <==> (forall j :: 0 <= j < |labels| ==> Enabled(states[j], labels[j]) && Proper(states[j], labels[j]))
  {
    if forall k :: 0 <= k < |states| ==> Exclusive(states[k]) {
      forall j | 0 <= j < |labels| ensures Enabled(states[j], labels[j]) && Proper(states[j], labels[j]) {
        FirstImproper(cfg, labels, states, j);
      }
    } else {
      var k :| 0 <= k < |states| && !Exclusive(states[k]);
      if forall j :: 0 <= j < |labels| ==> Enabled(states[j], labels[j]) && Proper(states[j], labels[j]) {
        ProperKeepsExclusive(cfg, labels, states, k);
      }
    }
  }

  lemma {:induction false} FirstImproper(cfg: Config, labels: seq<Label>, states: seq<System>, j: nat)
    requires IsRun(cfg, labels, states) && j < |labels| && forall k :: 0 <= k < |states| ==> Exclusive(states[k])
    ensures forall i :: 0 <= i <= j ==> Enabled(states[i], labels[i]) && Proper(states[i], labels[i])
  {
    if j > 0 {
      FirstImproper(cfg, labels, states, j - 1);
    }
    ProperKeepsExclusive(cfg, labels, states, j);
    RunKeepsUse(cfg, labels, states, j);
    StepKeepsExclusiveIff(cfg, states[j], labels[j]);
    assert Exclusive(states[j + 1]);
  }

  // ---------- Sharing ----------

  ghost predicate Shared(s: System, c: Caller, d: Caller) {
    c in s.holds && d in s.holds && c != d && s.holds[c] == s.holds[d]
  }

  lemma OnlyUsable(p: PoolState, id: Id)
    requires p.available == [id] && Usable(p, id)
    ensures FirstUsable(p, |p.available|) == Some(id)
  {
    assert p.available[0] == id && FirstUsable(p, 0) == None;
  }

  /** The next caller takes the only agent there is. */
  lemma TakesOnly(cfg: Config, s: System, c: Caller, id: Id) returns (t: System)
    requires Reachable(cfg, s) && c !in s.callers && !s.pool.isShuttingDown && s.pool.available == [id]
    requires Usable(s.pool, id)
    ensures t == Step(cfg, s, Acquire(c, 0)) && Reachable(cfg, t)
    ensures t.holds == s.holds[c := id] && t.callers == s.callers + {c} && t.pending == s.pending
    ensures t.pool == s.pool.(agents := t.pool.agents, available := [], idleTimers := s.pool.idleTimers - {id})
    ensures t.pool.agents.Has(id) && t.pool.agents.vals[id].acquired
    ensures t.pool.agents.vals[id].state == s.pool.agents.vals[id].state
  {
    OnlyUsable(s.pool, id);
    StepIsReachable(cfg, s, Acquire(c, 0));
    t := Step(cfg, s, Acquire(c, 0));
    assert Without([id], id) == [];
  }

  /** Whoever releases the only agent there is, it is there for the next caller. */
  lemma FreesOnly(cfg: Config, s: System, c: Caller, id: Id) returns (t: System)
    requires Reachable(cfg, s) && !s.pool.isShuttingDown && s.pool.available == []
    requires s.pool.agents.Has(id) && s.pool.agents.vals[id].acquired
    ensures t == Step(cfg, s, Release(c, id)) && Reachable(cfg, t)
    ensures t.pool == s.pool.(agents := t.pool.agents, available := [id], idleTimers := s.pool.idleTimers + {id})
    ensures Usable(t.pool, id) && t.callers == s.callers && t.pending == s.pending
    ensures t.holds == if (c, id) in s.holds.Items then s.holds - {c} else s.holds
  {
    ReachableIsOk(cfg, s);
    StepIsReachable(cfg, s, Release(c, id));
    t := Step(cfg, s, Release(c, id));
  }

  /**
   A caller that releases its agent a second time takes it from its next user: acquire, release, acquire
   by another, release by the first, and a third caller shares it with the second. No grant was stale.
   */
  lemma SecondReleaseShares(cfg: Config)
    requires cfg.maxPoolSize >= 1
    ensures exists s :: Reachable(cfg, s) && Shared(s, Caller(1), Caller(2))
  {
    var s, id := OneAcquired(cfg);
    s := FreesOnly(cfg, s, Caller(0), id);
    s := TakesOnly(cfg, s, Caller(1), id);
    assert s.holds == map[Caller(1) := id];
    s := FreesOnly(cfg, s, Caller(0), id);
    s := TakesOnly(cfg, s, Caller(2), id);
  }

  /** An agent created for one caller is taken by another first; the first one gets it all the same. */
  lemma StaleGrantShares(cfg: Config)
    requires cfg.maxPoolSize >= 1
    ensures exists s :: Reachable(cfg, s) && Shared(s, Caller(0), Caller(1))
  {
    InitialIsReachable(cfg);
    AcquireStarts(cfg, INITIAL, Caller(0), 0);
    StepIsReachable(cfg, INITIAL, Acquire(Caller(0), 0));
    var s := Step(cfg, INITIAL, Acquire(Caller(0), 0));
    var id := FreshId(s.born);
    StepIsReachable(cfg, s, Born(0, id));
    s := Step(cfg, s, Born(0, id));
    assert s.pending == [CreatedForAcquire(Caller(0), id)] && s.pool.available == [id];
    s := TakesOnly(cfg, s, Caller(1), id);
    StepIsReachable(cfg, s, Grant(0));
    assert Shared(Step(cfg, s, Grant(0)), Caller(0), Caller(1));
  }

  lemma FreshCaller(callers: set<Caller>) returns (c: Caller)
    ensures c !in callers
  {
    var n: nat := 0;
    var todo := callers;
    while todo != {}
      invariant todo <= callers && forall d :: d in callers && d !in todo ==> d.number < n
      decreases |todo|
    {
      var d :| d in todo;
      todo := todo - {d};
      n := Max(n, d.number + 1);
    }
    c := Caller(n);
  }

  lemma {:induction false} FirstIsUsable(p: PoolState, n: nat)
    requires PoolOk(p) && 0 < n <= |p.available|
    ensures FirstUsable(p, n) == Some(p.available[0])
  {
    if n > 1 {
      FirstIsUsable(p, n - 1);
    } else {
      assert FirstUsable(p, 0) == None && p.available[0] in p.available;
    }
  }

  lemma NextTakesFirst(cfg: Config, s: System, d: Caller) returns (t: System)
    requires Reachable(cfg, s) && !s.pool.isShuttingDown && s.pool.available != [] && d !in s.callers
    ensures Reachable(cfg, t) && !t.pool.isShuttingDown
    ensures t.holds == s.holds[d := s.pool.available[0]] && t.pool.available == s.pool.available[1..]
  {
    ReachableIsOk(cfg, s);
    FirstIsUsable(s.pool, |s.pool.available|);
    StepIsReachable(cfg, s, Acquire(d, 0));
    t := Step(cfg, s, Acquire(d, 0));
    WithoutAbsent(s.pool.available[1..], s.pool.available[0]);
  }

  /** An agent that is available while c uses it comes to be shared: enough calls of acquire hand it out again. */
  lemma {:induction false} UsedAvailableGetsShared(cfg: Config, s: System, c: Caller, i: nat)
    requires Reachable(cfg, s) && !s.pool.isShuttingDown && c in s.holds
    requires i < |s.pool.available| && s.pool.available[i] == s.holds[c]
    ensures exists t, d :: Reachable(cfg, t) && Shared(t, c, d)
    decreases i
  {
    ReachableUse(cfg, s);
    var d := FreshCaller(s.callers);
    var t := NextTakesFirst(cfg, s, d);
    if i == 0 {
      assert Shared(t, c, d);
    } else {
      UsedAvailableGetsShared(cfg, t, c, i - 1);
    }
  }

  lemma ReachableUse(cfg: Config, s: System)
    requires Reachable(cfg, s)
    ensures UseOk(s)
  {
    var labels, states :| IsRun(cfg, labels, states) && states[|labels|] == s;
    RunKeepsUse(cfg, labels, states, |labels|);
  }
}
