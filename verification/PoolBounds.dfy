/**
 src/agents/pool.js: the bounds on the size of the pool. Both hold when one call runs to completion
 before the next; overlapping calls can break each of them. For each bound: which steps keep it, what
 that means for whole runs, and a run that breaks it.
 */
module PoolBounds {
  import opened JsCollections
  import opened Pool
  import opened PoolRuns

  // ---------- The upper bound ----------

  /** How many agents a suspended call will still create. */
  function Reserves(x: Pending): nat {
    match x
    case CreatingForAcquire(_) => 1
    case CreatingForInit => 1
    case CreatingForScaleUp(left) => if left == 0 then 1 else left
    case _ => 0
  }

  function Reserved(pending: seq<Pending>): nat {
    if pending == [] then 0 else Reserved(pending[..|pending| - 1]) + Reserves(pending[|pending| - 1])
  }

  /** Agents in the pool, and agents on their way. */
  function Committed(s: System): nat { s.pool.agents.Size() + Reserved(s.pending) }

  /** What a call adds to the agents on their way. */
  function Claims(cfg: Config, s: System, l: Label): nat {
    match l
    case Initialize => if s.pool.isShuttingDown then 0 else cfg.minPoolSize
    case Acquire(_, priority) => if AcquireStep(cfg, s.pool, priority).1.MustCreate? then 1 else 0
    case ScaleUp(count) => var n := ToAdd(cfg, s.pool, count); if n <= 0 then 0 else n
    case _ => 0
  }

  lemma {:induction false} ReservedConcat(a: seq<Pending>, b: seq<Pending>)
    ensures Reserved(a + b) == Reserved(a) + Reserved(b)
  {
    if b == [] {
      assert a + b == a;
    } else {
      assert (a + b)[..|a + b| - 1] == a + b[..|b| - 1];
      ReservedConcat(a, b[..|b| - 1]);
    }
  }

  lemma ReservedOne(x: Pending)
    ensures Reserved([x]) == Reserves(x)
  {
    assert [x][..0] == [];
  }

  lemma {:induction false} ReservedTimes(n: nat)
    ensures Reserved(Times(n)) == n
  {
    if n > 0 {
      assert Times(n)[..n - 1] == Times(n - 1);
      ReservedTimes(n - 1);
    }
  }

  lemma ReservedSplit(pending: seq<Pending>, i: nat)
    requires i < |pending|
    ensures Reserved(pending) == Reserved(RemoveAt(pending, i)) + Reserves(pending[i])
  {
    ReservedUpdate(pending, i, pending[i]);
    assert pending[i := pending[i]] == pending;
  }

  lemma ReservedUpdate(pending: seq<Pending>, i: nat, x: Pending)
    requires i < |pending|
    ensures Reserved(pending[i := x]) == Reserved(RemoveAt(pending, i)) + Reserves(x)
  {
    ReservedConcat(pending[..i], pending[i + 1..]);
    assert pending[i := x] == pending[..i] + ([x] + pending[i + 1..]);
    ReservedConcat(pending[..i], [x] + pending[i + 1..]);
    ReservedConcat([x], pending[i + 1..]);
    ReservedOne(x);
  }

  lemma ReservedMore(pending: seq<Pending>, more: seq<Pending>, x: Pending)
    requires more == [x] || more == []
    ensures Reserved(pending + more) == Reserved(pending) + if more == [] then 0 else Reserves(x)
  {
    ReservedConcat(pending, more);
    ReservedOne(x);
  }

  lemma DestroyShrinks(p: PoolState, id: Id)
    ensures DestroyStep(p, id).agents.Size() == if p.agents.Has(id) then p.agents.Size() - 1 else p.agents.Size()
  {
  }

  lemma ReleaseShrinks(p: PoolState, id: Id)
    ensures ReleaseStep(p, id).agents.Size() <= p.agents.Size()
    ensures !p.isShuttingDown && AllActive(p.agents) ==> ReleaseStep(p, id).agents.Size() == p.agents.Size()
  {
  }

  lemma {:induction false} DestroyAllShrinks(p: PoolState, ids: seq<Id>)
    ensures DestroyAll(p, ids).agents.Size() <= p.agents.Size()
  {
    if ids != [] {
      DestroyAllShrinks(p, ids[..|ids| - 1]);
    }
  }

  lemma BornMoves(pending: seq<Pending>, i: nat, id: Id)
    requires i < |pending| && IsCreating(pending[i])
    ensures Reserved(AfterBirth(pending, i, id)) == Reserved(pending) - 1
  {
    ReservedSplit(pending, i);
    if pending[i].CreatingForAcquire? {
      ReservedUpdate(pending, i, CreatedForAcquire(pending[i].caller, id));
    } else if pending[i].CreatingForScaleUp? && pending[i].left > 1 {
      ReservedUpdate(pending, i, CreatingForScaleUp(pending[i].left - 1));
    }
  }

  lemma RemoveFirstCommits(p: PoolState, pending: seq<Pending>, ids: seq<Id>)
    ensures var (p', more) := RemoveFirst(p, ids);
      && Reserved(pending + more) == Reserved(pending)
      && p'.agents.Size() == if ids != [] && p.agents.Has(ids[0]) then p.agents.Size() - 1 else p.agents.Size()
  {
    var more := RemoveFirst(p, ids).1;
    if |ids| > 1 {
      ReservedMore(pending, more, Removing(ids[1..]));
    } else {
      assert pending + more == pending;
    }
  }

  lemma AddGrows(p: PoolState, id: Id)
    ensures AddStep(p, id).agents.Size() <= p.agents.Size() + 1
  {
  }

  predicate Starts(l: Label) { l.Initialize? || l.Acquire? || l.ScaleUp? }

  lemma InitializeCommits(cfg: Config, s: System)
    ensures Committed(Step(cfg, s, Initialize)) == Committed(s) + Claims(cfg, s, Initialize)
  {
    ReservedConcat(s.pending, Times(cfg.minPoolSize));
    ReservedTimes(cfg.minPoolSize);
  }

  lemma AcquireCommits(cfg: Config, s: System, caller: Caller, priority: int)
    requires Enabled(s, Acquire(caller, priority))
    ensures Committed(Step(cfg, s, Acquire(caller, priority)))
      == Committed(s) + Claims(cfg, s, Acquire(caller, priority))
  {
    ReservedMore(s.pending, [CreatingForAcquire(caller)], CreatingForAcquire(caller));
  }

  lemma ScaleUpCommits(cfg: Config, s: System, count: int)
    ensures Committed(Step(cfg, s, ScaleUp(count))) == Committed(s) + Claims(cfg, s, ScaleUp(count))
  {
    var n := ToAdd(cfg, s.pool, count);
    if n > 0 {
      ReservedMore(s.pending, [CreatingForScaleUp(n)], CreatingForScaleUp(n));
    }
  }

  /** A call that starts to create agents commits the pool to exactly what it claims. */
  lemma StartCommits(cfg: Config, s: System, l: Label)
    requires Enabled(s, l) && Starts(l)
    ensures Committed(Step(cfg, s, l)) == Committed(s) + Claims(cfg, s, l)
  {
    match l
    case Initialize => InitializeCommits(cfg, s);
    case Acquire(caller, priority) => AcquireCommits(cfg, s, caller, priority);
    case ScaleUp(count) => ScaleUpCommits(cfg, s, count);
  }

  /** Nothing else commits the pool to more agents. */
  lemma OtherStepsCommit(cfg: Config, s: System, l: Label)
    requires Enabled(s, l) && !Starts(l)
    ensures Committed(Step(cfg, s, l)) <= Committed(s)
  {
    match l
    case Born(i, id) =>
      AddGrows(s.pool, id);
      BornMoves(s.pending, i, id);
    case BirthFailed(i) => ReservedSplit(s.pending, i);
    case Grant(i) => ReservedSplit(s.pending, i);
    case Release(_, id) => ReleaseShrinks(s.pool, id);
    case ScaleDown(count) => RemoveFirstCommits(s.pool, s.pending, ToRemove(cfg, s.pool, count));
    case RemoveNext(i) =>
      ReservedSplit(s.pending, i);
      RemoveFirstCommits(s.pool, RemoveAt(s.pending, i), s.pending[i].ids);
    case IdleTimeout(id) => DestroyShrinks(s.pool, id);
    case WaiterTimeout(i) =>
    case Shutdown =>
      DestroyAllShrinks(s.pool.(isShuttingDown := true, idleTimers := {}, waitQueue := []), s.pool.agents.keys);
      ReservedMore(s.pending, [Closing], Closing);
    case Close(i) => ReservedSplit(s.pending, i);
  }

  /** What the call would have to check: that there is room besides the agents already on their way. */
  predicate HasRoom(cfg: Config, s: System, l: Label) {
    Starts(l) ==> Claims(cfg, s, l) == 0 || Committed(s) + Claims(cfg, s, l) <= cfg.maxPoolSize
  }

  /** A step keeps the pool committed to at most maxPoolSize agents exactly when the call has room. */
  lemma StepKeepsBoundIff(cfg: Config, s: System, l: Label)
    requires Enabled(s, l) && Committed(s) <= cfg.maxPoolSize
    ensures Committed(Step(cfg, s, l)) <= cfg.maxPoolSize <==> HasRoom(cfg, s, l)
  {
    if Starts(l) {
      StartCommits(cfg, s, l);
    } else {
      OtherStepsCommit(cfg, s, l);
    }
  }

  lemma BirthKeepsCommitted(cfg: Config, s: System, i: nat, id: Id)
    requires Enabled(s, Born(i, id)) && BornOk(s)
    ensures Committed(Step(cfg, s, Born(i, id))) == Committed(s) && BornOk(Step(cfg, s, Born(i, id)))
  {
    BornMoves(s.pending, i, id);
    StepAddsBornOnly(cfg, s, Born(i, id));
    StepKeepsPendingBorn(cfg, s, Born(i, id));
  }

  lemma {:induction false} FindsCreation(pending: seq<Pending>) returns (i: nat)
    requires Reserved(pending) > 0
    ensures i < |pending| && IsCreating(pending[i])
  {
    if IsCreating(pending[|pending| - 1]) {
      i := |pending| - 1;
    } else {
      i := FindsCreation(pending[..|pending| - 1]);
    }
  }

  /** From s, the lifecycle can finish n creations one after the other and leave the pool as in t. */
  ghost predicate ByBirths(cfg: Config, s: System, t: System, n: nat)
    decreases n, 1
  {
    if n == 0 then t == s else exists i, id :: BirthLeads(cfg, s, i, id, t, n)
  }

  ghost predicate BirthLeads(cfg: Config, s: System, i: nat, id: Id, t: System, n: nat)
    requires n > 0
    decreases n, 0
  {
    Enabled(s, Born(i, id)) && ByBirths(cfg, Step(cfg, s, Born(i, id)), t, n - 1)
  }

  lemma {:induction false} BirthsReachCommitted(cfg: Config, s: System) returns (t: System)
    requires BornOk(s)
    ensures ByBirths(cfg, s, t, Reserved(s.pending)) && t.pool.agents.Size() == Committed(s)
    decreases Reserved(s.pending)
  {
    if Reserved(s.pending) == 0 {
      t := s;
    } else {
      var i := FindsCreation(s.pending);
      var id := FreshId(s.born);
      var next := Step(cfg, s, Born(i, id));
      BirthKeepsCommitted(cfg, s, i, id);
      BornMoves(s.pending, i, id);
      t := BirthsReachCommitted(cfg, next);
      assert BirthLeads(cfg, s, i, id, t, Reserved(s.pending));
    }
  }

  lemma {:induction false} BirthsStayCommitted(cfg: Config, s: System, t: System, n: nat)
    requires BornOk(s) && ByBirths(cfg, s, t, n)
    ensures t.pool.agents.Size() <= Committed(s)
    decreases n, 1
  {
    if n > 0 {
      var i, id :| BirthLeads(cfg, s, i, id, t, n);
      BirthStaysCommitted(cfg, s, i, id, t, n);
    }
  }

  lemma BirthStaysCommitted(cfg: Config, s: System, i: nat, id: Id, t: System, n: nat)
    requires n > 0 && BornOk(s) && BirthLeads(cfg, s, i, id, t, n)
    ensures t.pool.agents.Size() <= Committed(s)
    decreases n, 0
  {
    BirthKeepsCommitted(cfg, s, i, id);
    BirthsStayCommitted(cfg, Step(cfg, s, Born(i, id)), t, n - 1);
  }

  /**
   Being committed to at most maxPoolSize agents is what the bound on the size needs: in a reachable state
   it means exactly that the creations under way cannot take the pool above maxPoolSize.
   */
  lemma CommittedIsExact(cfg: Config, s: System)
    requires Reachable(cfg, s)
    ensures Committed(s) <= cfg.maxPoolSize
      <==> forall t, n :: ByBirths(cfg, s, t, n) ==> t.pool.agents.Size() <= cfg.maxPoolSize
  {
    ReachableIsBorn(cfg, s);
    var most := BirthsReachCommitted(cfg, s);
    assert ByBirths(cfg, s, most, Reserved(s.pending));
    forall t, n | ByBirths(cfg, s, t, n) ensures t.pool.agents.Size() <= Committed(s) {
      BirthsStayCommitted(cfg, s, t, n);
    }
  }

  /** A call without room can take the pool above maxPoolSize, with nothing but the creations it joins. */
  lemma NoRoomExceeds(cfg: Config, s: System, l: Label)
    requires Reachable(cfg, s) && Enabled(s, l) && Committed(s) <= cfg.maxPoolSize && !HasRoom(cfg, s, l)
    ensures exists t, n :: ByBirths(cfg, Step(cfg, s, l), t, n) && t.pool.agents.Size() > cfg.maxPoolSize
  {
    StepKeepsBoundIff(cfg, s, l);
    StepIsReachable(cfg, s, l);
    CommittedIsExact(cfg, Step(cfg, s, l));
  }

  /** Under every interleaving in which each call has room, the pool never exceeds maxPoolSize. */
  lemma {:induction false} RoomKeepsBound(cfg: Config, labels: seq<Label>, states: seq<System>, k: nat)
    requires IsRun(cfg, labels, states) && k < |states| && cfg.maxPoolSize >= 0
    requires forall j :: 0 <= j < |labels| ==> HasRoom(cfg, states[j], labels[j])
    ensures states[k].pool.agents.Size() <= Committed(states[k]) <= cfg.maxPoolSize
  {
    if k > 0 {
      RoomKeepsBound(cfg, labels, states, k - 1);
      assert Enabled(states[k - 1], labels[k - 1]);
      StepKeepsBoundIff(cfg, states[k - 1], labels[k - 1]);
    }
  }

  /** A run stays committed to at most maxPoolSize agents exactly when each of its calls has room. */
  lemma RunKeepsBoundIff(cfg: Config, labels: seq<Label>, states: seq<System>)
    requires IsRun(cfg, labels, states) && cfg.maxPoolSize >= 0
    ensures (forall k :: 0 <= k < |states| ==> Committed(states[k]) <= cfg.maxPoolSize)
      <==> (forall j :: 0 <= j < |labels| ==> HasRoom(cfg, states[j], labels[j]))
  {
    if forall j :: 0 <= j < |labels| ==> HasRoom(cfg, states[j], labels[j]) {
      forall k | 0 <= k < |states| ensures Committed(states[k]) <= cfg.maxPoolSize {
        RoomKeepsBound(cfg, labels, states, k);
      }
    } else {
      var j :| 0 <= j < |labels| && !HasRoom(cfg, states[j], labels[j]);
      assert Enabled(states[j], labels[j]);
      if Committed(states[j]) <= cfg.maxPoolSize {
        StepKeepsBoundIff(cfg, states[j], labels[j]);
        assert Committed(states[j + 1]) > cfg.maxPoolSize;
      }
    }
  }

  // ---------- One call at a time ----------

  predicate IsCall(l: Label) { Starts(l) || l.ScaleDown? || l.Release? || l.IdleTimeout? || l.Shutdown? }

  /** Each call runs to completion before the next one. */
  ghost predicate OneAtATime(labels: seq<Label>, states: seq<System>)
    requires |states| == |labels| + 1
  {
    forall k :: 0 <= k < |labels| && IsCall(labels[k]) ==> states[k].pending == []
  }

  /** With nothing under way, acquire and scaleUp check for room themselves; initialize does not. */
  lemma OnlyInitializeLacksRoom(cfg: Config, s: System, l: Label)
    requires s.pending == [] && !l.Initialize?
    ensures HasRoom(cfg, s, l)
  {
  }

  predicate RoomToInitialize(cfg: Config, s: System) {
    cfg.minPoolSize == 0 || s.pool.isShuttingDown || s.pool.agents.Size() + cfg.minPoolSize <= cfg.maxPoolSize
  }

  /**
   One call at a time, the pool stays committed to at most maxPoolSize agents exactly when each initialize
   finds room for minPoolSize more; acquire and scaleUp need no condition.
   */
  lemma SequentialUpperBoundIff(cfg: Config, labels: seq<Label>, states: seq<System>)
    requires IsRun(cfg, labels, states) && OneAtATime(labels, states) && cfg.maxPoolSize >= 0
    ensures (forall k :: 0 <= k < |states| ==> Committed(states[k]) <= cfg.maxPoolSize)
      <==> (forall k :: 0 <= k < |labels| && labels[k].Initialize? ==> RoomToInitialize(cfg, states[k]))
  {
    RunKeepsBoundIff(cfg, labels, states);
    forall k | 0 <= k < |labels|
      ensures HasRoom(cfg, states[k], labels[k]) <==> labels[k].Initialize? ==> RoomToInitialize(cfg, states[k])
    {
      RoomOneAtATime(cfg, labels, states, k);
    }
  }

  lemma RoomOneAtATime(cfg: Config, labels: seq<Label>, states: seq<System>, k: nat)
    requires IsRun(cfg, labels, states) && OneAtATime(labels, states) && k < |labels|
    ensures HasRoom(cfg, states[k], labels[k]) <==> labels[k].Initialize? ==> RoomToInitialize(cfg, states[k])
  {
    assert Enabled(states[k], labels[k]);
    if Starts(labels[k]) && !labels[k].Initialize? {
      OnlyInitializeLacksRoom(cfg, states[k], labels[k]);
    }
  }

  // ---------- The lower bound ----------

  /** A scaleDown that is under way is alone, and will stop at minPoolSize. */
  ghost predicate ScalingDownSafely(cfg: Config, s: System) {
    forall i :: 0 <= i < |s.pending| && s.pending[i].Removing? ==>
      |s.pending| == 1 && s.pool.agents.Size() - |s.pending[i].ids| >= cfg.minPoolSize
  }

  lemma ScaleDownIsSafe(cfg: Config, s: System, count: int)
    requires s.pending == []
    ensures ScalingDownSafely(cfg, Step(cfg, s, ScaleDown(count)))
    ensures s.pool.agents.Size() >= cfg.minPoolSize
      ==> Step(cfg, s, ScaleDown(count)).pool.agents.Size() >= cfg.minPoolSize
  {
    var ids := ToRemove(cfg, s.pool, count);
    RemoveFirstCommits(s.pool, s.pending, ids);
  }

  lemma RemoveNextIsSafe(cfg: Config, s: System, i: nat)
    requires Enabled(s, RemoveNext(i)) && ScalingDownSafely(cfg, s)
    ensures ScalingDownSafely(cfg, Step(cfg, s, RemoveNext(i)))
    ensures Step(cfg, s, RemoveNext(i)).pool.agents.Size() >= cfg.minPoolSize
  {
    var ids := s.pending[i].ids;
    RemoveFirstCommits(s.pool, RemoveAt(s.pending, i), ids);
    assert RemoveAt(s.pending, i) == [];
  }

  ghost predicate NoRemoval(pending: seq<Pending>) { forall i :: 0 <= i < |pending| ==> !pending[i].Removing? }

  lemma AloneOrAbsent(cfg: Config, s: System, i: nat)
    requires ScalingDownSafely(cfg, s) && i < |s.pending| && !s.pending[i].Removing?
    ensures NoRemoval(s.pending)
  {
  }

  lemma CallsAreSafe(cfg: Config, s: System, l: Label)
    requires Enabled(s, l) && s.pending == [] && IsCall(l) && !l.ScaleDown?
    ensures NoRemoval(Step(cfg, s, l).pending)
  {
  }

  lemma ContinuationsAreSafe(cfg: Config, s: System, l: Label)
    requires Enabled(s, l) && NoRemoval(s.pending) && !IsCall(l) && !l.RemoveNext?
    ensures NoRemoval(Step(cfg, s, l).pending)
  {
  }

  lemma OtherStepsAreSafe(cfg: Config, s: System, l: Label)
    requires Enabled(s, l) && ScalingDownSafely(cfg, s) && (IsCall(l) ==> s.pending == []) && !l.ScaleDown?
    requires !l.RemoveNext?
    ensures ScalingDownSafely(cfg, Step(cfg, s, l))
  {
    match l
    case Born(i, id) => AloneOrAbsent(cfg, s, i); ContinuationsAreSafe(cfg, s, l);
    case BirthFailed(i) => AloneOrAbsent(cfg, s, i); ContinuationsAreSafe(cfg, s, l);
    case Grant(i) => AloneOrAbsent(cfg, s, i); ContinuationsAreSafe(cfg, s, l);
    case Close(i) => AloneOrAbsent(cfg, s, i); ContinuationsAreSafe(cfg, s, l);
    case WaiterTimeout(i) =>
    case _ => CallsAreSafe(cfg, s, l);
  }

  lemma {:induction false} SequentialScalesSafely(cfg: Config, labels: seq<Label>, states: seq<System>, k: nat)
    requires IsRun(cfg, labels, states) && k < |states| && OneAtATime(labels, states)
    ensures ScalingDownSafely(cfg, states[k])
  {
    if k > 0 {
      SequentialScalesSafely(cfg, labels, states, k - 1);
      var s, l := states[k - 1], labels[k - 1];
      assert Enabled(s, l);
      match l
      case ScaleDown(count) => ScaleDownIsSafe(cfg, s, count);
      case RemoveNext(i) => RemoveNextIsSafe(cfg, s, i);
      case _ => OtherStepsAreSafe(cfg, s, l);
    }
  }

  /** One call at a time, neither scaleDown nor an idle timeout takes the pool below minPoolSize. */
  lemma SequentialLowerBound(cfg: Config, labels: seq<Label>, states: seq<System>, k: nat)
    requires IsRun(cfg, labels, states) && k < |labels| && OneAtATime(labels, states)
    requires labels[k].ScaleDown? || labels[k].RemoveNext? || labels[k].IdleTimeout?
    requires states[k].pool.agents.Size() >= cfg.minPoolSize
    ensures states[k + 1].pool.agents.Size() >= cfg.minPoolSize
  {
    var s := states[k];
    assert Enabled(s, labels[k]);
    SequentialScalesSafely(cfg, labels, states, k);
    match labels[k]
    case ScaleDown(count) => ScaleDownIsSafe(cfg, s, count);
    case RemoveNext(i) => RemoveNextIsSafe(cfg, s, i);
    case IdleTimeout(id) => DestroyShrinks(s.pool, id);
  }

  // ---------- The lower bound, whatever overlaps ----------

  /** What a step would have to check before it takes an agent away. */
  predicate KeepsMinimum(cfg: Config, s: System, l: Label)
    requires Enabled(s, l)
  {
    match l
    case RemoveNext(i) =>
      var ids := s.pending[i].ids;
      ids == [] || !s.pool.agents.Has(ids[0]) || s.pool.agents.Size() > cfg.minPoolSize
    case Release(_, id) =>
      !s.pool.isShuttingDown || !s.pool.agents.Has(id) || !s.pool.agents.vals[id].acquired
        || s.pool.agents.Size() > cfg.minPoolSize
    case Shutdown => s.pool.isShuttingDown || cfg.minPoolSize == 0
    case Close(_) => cfg.minPoolSize == 0
    case _ => true
  }

  lemma {:induction false} DestroyAllLeaves(p: PoolState, ids: seq<Id>)
    ensures forall id :: id in DestroyAll(p, ids).agents.vals <==> id in p.agents.vals && id !in ids
  {
    if ids != [] {
      DestroyAllLeaves(p, ids[..|ids| - 1]);
      assert ids == ids[..|ids| - 1] + [ids[|ids| - 1]];
    }
  }

  lemma ShutdownEmpties(p: PoolState)
    requires !p.isShuttingDown
    ensures ShutdownStep(p).agents.Size() == 0
  {
    DestroyAllLeaves(p.(isShuttingDown := true, idleTimers := {}, waitQueue := []), p.agents.keys);
    var keys := ShutdownStep(p).agents.keys;
    SizeIsCardinality(keys);
    assert (set id | id in keys) == {};
  }

  lemma ReleaseKeepsMinimumIff(p: PoolState, id: Id)
    requires PoolOk(p)
    ensures ReleaseStep(p, id).agents.Size()
      == if p.isShuttingDown && p.agents.Has(id) && p.agents.vals[id].acquired then p.agents.Size() - 1
        else p.agents.Size()
  {
  }

  /** In a pool of minPoolSize agents or more, a step leaves as many exactly when it passes that check. */
  lemma StepKeepsMinimumIff(cfg: Config, s: System, l: Label)
    requires Enabled(s, l) && PoolOk(s.pool) && s.pool.agents.Size() >= cfg.minPoolSize
    ensures Step(cfg, s, l).pool.agents.Size() >= cfg.minPoolSize <==> KeepsMinimum(cfg, s, l)
  {
    match l
    case ScaleDown(count) => RemoveFirstCommits(s.pool, s.pending, ToRemove(cfg, s.pool, count));
    case RemoveNext(i) => RemoveFirstCommits(s.pool, RemoveAt(s.pending, i), s.pending[i].ids);
    case Release(_, id) => ReleaseKeepsMinimumIff(s.pool, id);
    case Shutdown =>
      if !s.pool.isShuttingDown {
        ShutdownEmpties(s.pool);
      }
    case _ =>
  }

  lemma {:induction false} ChecksKeepMinimum(cfg: Config, labels: seq<Label>, states: seq<System>, from: nat, k: nat)
    requires IsRun(cfg, labels, states) && from <= k < |states| && states[from].pool.agents.Size() >= cfg.minPoolSize
    requires forall j :: from <= j < |labels| ==>
      Enabled(states[j], labels[j]) && KeepsMinimum(cfg, states[j], labels[j])
    ensures states[k].pool.agents.Size() >= cfg.minPoolSize
  {
    if from < k {
      ChecksKeepMinimum(cfg, labels, states, from, k - 1);
      PartitionHolds(cfg, labels, states, k - 1);
      StepKeepsMinimumIff(cfg, states[k - 1], labels[k - 1]);
    }
  }

  /**
   Under every interleaving: from then on the pool keeps
   minPoolSize agents exactly when each step passes the check.
   */
  lemma RunKeepsMinimumIff(cfg: Config, labels: seq<Label>, states: seq<System>, from: nat)
    requires IsRun(cfg, labels, states) && from < |states| && states[from].pool.agents.Size() >= cfg.minPoolSize
    ensures (forall k :: from <= k < |states| ==> states[k].pool.agents.Size() >= cfg.minPoolSize)
      <==> (forall j :: from <= j < |labels| ==>
        Enabled(states[j], labels[j]) && KeepsMinimum(cfg, states[j], labels[j]))
  {
    if forall j :: from <= j < |labels| ==> Enabled(states[j], labels[j]) && KeepsMinimum(cfg, states[j], labels[j]) {
      forall k | from <= k < |states| ensures states[k].pool.agents.Size() >= cfg.minPoolSize {
        ChecksKeepMinimum(cfg, labels, states, from, k);
      }
    } else {
      var j :| from <= j < |labels| && !(Enabled(states[j], labels[j]) && KeepsMinimum(cfg, states[j], labels[j]));
      assert Enabled(states[j], labels[j]);
      PartitionHolds(cfg, labels, states, j);
      if states[j].pool.agents.Size() >= cfg.minPoolSize {
        StepKeepsMinimumIff(cfg, states[j], labels[j]);
        assert states[j + 1].pool.agents.Size() < cfg.minPoolSize;
      }
    }
  }

  /** What scaleDown sets out to destroy: different free agents, and no more than minPoolSize allows. */
  lemma RemovalStopsAtMinimum(cfg: Config, p: PoolState, count: int)
    requires PoolOk(p) && count >= 0 && p.agents.Size() >= cfg.minPoolSize
    ensures var ids := ToRemove(cfg, p, count);
      && NoDup(ids) && (forall id :: id in ids ==> Usable(p, id))
      && DestroyAll(p, ids).agents.Size() == p.agents.Size() - |ids| >= cfg.minPoolSize
      && (|ids| == count || |ids| == |p.available| || DestroyAll(p, ids).agents.Size() == cfg.minPoolSize)
  {
    var ids := ToRemove(cfg, p, count);
    assert forall i :: 0 <= i < |ids| ==> ids[i] == p.available[i] && ids[i] in p.available;
    DestroyDistinct(p, ids);
  }

  lemma {:induction false} DestroyDistinct(p: PoolState, ids: seq<Id>)
    requires NoDup(ids) && forall id :: id in ids ==> p.agents.Has(id)
    ensures DestroyAll(p, ids).agents.Size() == p.agents.Size() - |ids|
  {
    if ids != [] {
      var init, last := ids[..|ids| - 1], ids[|ids| - 1];
      assert ids == init + [last];
      DestroyDistinct(p, init);
      DestroyAllLeaves(p, init);
      assert last in ids && last !in init;
      DestroyShrinks(DestroyAll(p, init), last);
    }
  }

  // ---------- Overlapping calls ----------

  lemma NothingUsable(p: PoolState)
    requires p.available == []
    ensures FirstUsable(p, |p.available|) == None
  {
  }

  lemma AcquireStarts(cfg: Config, s: System, c: Caller, priority: int)
    requires s.pool.available == [] && s.pool.agents.Size() < cfg.maxPoolSize && !s.pool.isShuttingDown
    requires c !in s.callers
    ensures Step(cfg, s, Acquire(c, priority))
      == s.(pending := s.pending + [CreatingForAcquire(c)], callers := s.callers + {c})
  {
    NothingUsable(s.pool);
  }

  /** n calls of acquire on a fresh pool, each suspended at its creation. */
  lemma {:induction false} AcquiresPileUp(cfg: Config, n: nat) returns (s: System)
    requires cfg.maxPoolSize >= 1
    ensures Reachable(cfg, s) && s.pool == FRESH && Reserved(s.pending) == n
    ensures forall c :: c in s.callers ==> c.number < n
  {
    if n == 0 {
      InitialIsReachable(cfg);
      s := INITIAL;
    } else {
      var before := AcquiresPileUp(cfg, n - 1);
      var c := Caller(n - 1);
      s := Step(cfg, before, Acquire(c, 0));
      AcquireStarts(cfg, before, c, 0);
      StepIsReachable(cfg, before, Acquire(c, 0));
      ReservedMore(before.pending, [CreatingForAcquire(c)], CreatingForAcquire(c));
    }
  }

  lemma {:induction false} BirthsAreReachable(cfg: Config, s: System, t: System, n: nat)
    requires Reachable(cfg, s) && ByBirths(cfg, s, t, n)
    ensures Reachable(cfg, t)
    decreases n, 1
  {
    if n > 0 {
      var i, id :| BirthLeads(cfg, s, i, id, t, n);
      BirthIsReachable(cfg, s, i, id, t, n);
    }
  }

  lemma BirthIsReachable(cfg: Config, s: System, i: nat, id: Id, t: System, n: nat)
    requires n > 0 && Reachable(cfg, s) && BirthLeads(cfg, s, i, id, t, n)
    ensures Reachable(cfg, t)
    decreases n, 0
  {
    StepIsReachable(cfg, s, Born(i, id));
    BirthsAreReachable(cfg, Step(cfg, s, Born(i, id)), t, n - 1);
  }

  /** Overlapping acquires alone can take a pool to any size, whatever maxPoolSize is (from 1 up). */
  lemma OverlappingAcquiresReachAnySize(cfg: Config, n: nat)
    requires cfg.maxPoolSize >= 1
    ensures exists s :: Reachable(cfg, s) && s.pool.agents.Size() == n
  {
    var s := AcquiresPileUp(cfg, n);
    ReachableIsBorn(cfg, s);
    var t := BirthsReachCommitted(cfg, s);
    BirthsAreReachable(cfg, s, t, Reserved(s.pending));
  }

  /** A scaleDown of two that is suspended after the first, and an idle timeout, together go below minPoolSize. */
  lemma ScaleDownAndIdleUndershoot(cfg: Config, s: System, a: Id, b: Id, c: Id)
    requires !s.pool.isShuttingDown && cfg.minPoolSize >= 1
    requires s.pending == [] && s.pool.agents.Size() == cfg.minPoolSize + 2 && |s.pool.available| >= 2
    requires s.pool.available[0] == a && s.pool.available[1] == b && a != b && a != c && b != c
    requires s.pool.agents.Has(a) && s.pool.agents.Has(b) && s.pool.agents.Has(c) && Usable(s.pool, c)
    requires c in s.pool.idleTimers
    ensures var s1 := Step(cfg, s, ScaleDown(2));
      Enabled(s1, IdleTimeout(c)) && Undershoots(cfg, Step(cfg, s1, IdleTimeout(c)))
  {
    var s1 := Step(cfg, s, ScaleDown(2));
    ScaleDownSuspends(cfg, s, a, b);
    DestroyShrinks(s.pool, a);
    TimeoutThenRemoval(cfg, s1, b, c);
  }

  lemma TimeoutThenRemoval(cfg: Config, s: System, b: Id, c: Id)
    requires s.pending == [Removing([b])] && s.pool.agents.Size() == cfg.minPoolSize + 1 && cfg.minPoolSize >= 1
    requires !s.pool.isShuttingDown && s.pool.agents.Has(b) && b != c && Usable(s.pool, c) && c in s.pool.idleTimers
    ensures Undershoots(cfg, Step(cfg, s, IdleTimeout(c)))
  {
    var t := Step(cfg, s, IdleTimeout(c));
    DestroyShrinks(s.pool, c);
    RemoveFirstCommits(t.pool, RemoveAt(t.pending, 0), [b]);
  }

  lemma ScaleDownSuspends(cfg: Config, s: System, a: Id, b: Id)
    requires s.pending == [] && s.pool.agents.Size() == cfg.minPoolSize + 2
    requires |s.pool.available| >= 2 && s.pool.available[0] == a && s.pool.available[1] == b
    ensures Step(cfg, s, ScaleDown(2)) == s.(pool := DestroyStep(s.pool, a), pending := [Removing([b])])
  {
    var ids := ToRemove(cfg, s.pool, 2);
    assert ids == [a, b];
    assert ids[1..] == [b];
  }

  /** What a pool has in t beyond what it had in s: the agents `added`, all free. */
  ghost predicate Adds(s: System, t: System, added: seq<Id>) {
    && t.holds == s.holds && t.pool == s.pool.(agents := t.pool.agents, available := s.pool.available + added)
    && t.pool.agents.Size() == s.pool.agents.Size() + |added|
    && forall id :: id in s.pool.agents.vals ==>
      id in t.pool.agents.vals && t.pool.agents.vals[id] == s.pool.agents.vals[id]
  }

  lemma BirthAdds(cfg: Config, s: System, i: nat, id: Id)
    requires Enabled(s, Born(i, id)) && SystemOk(s) && BornOk(s)
    ensures Adds(s, Step(cfg, s, Born(i, id)), [id])
  {
  }

  lemma AddsTwice(s: System, t: System, u: System, a: seq<Id>, b: seq<Id>)
    requires Adds(s, t, a) && Adds(t, u, b)
    ensures Adds(s, u, a + b)
  {
    assert s.pool.available + a + b == s.pool.available + (a + b);
  }

  /** A scaleUp of n that is alone adds n free agents. */
  lemma {:induction false} ScaleUpAdds(cfg: Config, s: System, n: nat) returns (t: System, added: seq<Id>)
    requires Reachable(cfg, s) && n > 0 && s.pending == [CreatingForScaleUp(n)]
    ensures Reachable(cfg, t) && t.pending == [] && |added| == n && Adds(s, t, added)
    decreases n
  {
    ReachableIsOk(cfg, s);
    ReachableIsBorn(cfg, s);
    var id := FreshId(s.born);
    t, added := Step(cfg, s, Born(0, id)), [id];
    StepIsReachable(cfg, s, Born(0, id));
    BirthAdds(cfg, s, 0, id);
    if n > 1 {
      var u, more := ScaleUpAdds(cfg, t, n - 1);
      AddsTwice(s, t, u, added, more);
      t, added := u, added + more;
    }
  }

  /** A run to a pool of one agent, which is acquired. */
  lemma OneAcquired(cfg: Config) returns (s: System, c: Id)
    requires cfg.maxPoolSize >= 1
    ensures Reachable(cfg, s) && s.holds == map[Caller(0) := c] && s.callers == {Caller(0)} && s.pending == []
    ensures s.pool == FRESH.(agents := s.pool.agents)
    ensures s.pool.agents == OrderedMap([c], map[c := Pooled(ACTIVE, true, 0)])
  {
    InitialIsReachable(cfg);
    AcquireStarts(cfg, INITIAL, Caller(0), 0);
    StepIsReachable(cfg, INITIAL, Acquire(Caller(0), 0));
    var s1 := Step(cfg, INITIAL, Acquire(Caller(0), 0));
    c := FreshId(s1.born);
    StepIsReachable(cfg, s1, Born(0, c));
    s := FirstGranted(cfg, s1, c);
  }

  lemma FirstGranted(cfg: Config, s1: System, c: Id) returns (s: System)
    requires s1 == INITIAL.(pending := [CreatingForAcquire(Caller(0))], callers := {Caller(0)})
    requires Reachable(cfg, Step(cfg, s1, Born(0, c)))
    ensures Reachable(cfg, s) && s.holds == map[Caller(0) := c] && s.callers == {Caller(0)} && s.pending == []
    ensures s.pool == FRESH.(agents := s.pool.agents)
    ensures s.pool.agents == OrderedMap([c], map[c := Pooled(ACTIVE, true, 0)])
  {
    var s2 := Step(cfg, s1, Born(0, c));
    assert s2.pending == [CreatedForAcquire(Caller(0), c)] && s2.pool.available == [c];
    StepIsReachable(cfg, s2, Grant(0));
    s := Step(cfg, s2, Grant(0));
    assert Without([c], c) == [];
  }

  /** A run to a pool of one acquired agent, with n free ones beside it. */
  lemma OneAcquiredBeside(cfg: Config, n: nat) returns (s: System, c: Id)
    requires 0 < n < cfg.maxPoolSize
    ensures Reachable(cfg, s) && s.pending == [] && s.pool.agents.Size() == n + 1 && |s.pool.available| == n
    ensures !s.pool.isShuttingDown && s.pool.waitQueue == [] && s.pool.agents.Has(c) && s.pool.agents.vals[c].acquired
  {
    var alone;
    alone, c := OneAcquired(cfg);
    StepIsReachable(cfg, alone, ScaleUp(n));
    var starting := Step(cfg, alone, ScaleUp(n));
    assert starting.pending == [CreatingForScaleUp(n)];
    var added;
    s, added := ScaleUpAdds(cfg, starting, n);
  }

  /** Releasing the acquired agent puts it behind the free ones, with an idle timer. */
  lemma OneTimedBeside(cfg: Config, n: nat) returns (s: System, c: Id)
    requires 0 < n < cfg.maxPoolSize
    ensures Reachable(cfg, s) && s.pending == [] && s.pool.agents.Size() == n + 1 && !s.pool.isShuttingDown
    ensures |s.pool.available| == n + 1 && s.pool.available[n] == c && c in s.pool.idleTimers
  {
    var before;
    before, c := OneAcquiredBeside(cfg, n);
    ReachableIsOk(cfg, before);
    StepIsReachable(cfg, before, Release(Caller(0), c));
    s := Step(cfg, before, Release(Caller(0), c));
    assert s.pool.available == before.pool.available + [c];
  }

  /** A pool of minPoolSize agents that is about to lose one to a scaleDown. */
  predicate Undershoots(cfg: Config, s: System) {
    && Enabled(s, RemoveNext(0)) && !s.pool.isShuttingDown && s.pool.agents.Size() == cfg.minPoolSize
    && Step(cfg, s, RemoveNext(0)).pool.agents.Size() < cfg.minPoolSize
  }

  /**
   Whenever minPoolSize is at least 1 and maxPoolSize leaves room for two more, a run of acquire, scaleUp,
   release, scaleDown and an idle timeout takes a pool that is not shutting down below minPoolSize.
   */
  lemma UndershootIsReachable(cfg: Config)
    requires 1 <= cfg.minPoolSize && cfg.minPoolSize + 2 <= cfg.maxPoolSize
    ensures exists s :: Reachable(cfg, s) && Undershoots(cfg, s)
  {
    var s, c := OneTimedBeside(cfg, cfg.minPoolSize + 1);
    ReachableIsOk(cfg, s);
    ScaleDownAndIdleUndershoot(cfg, s, s.pool.available[0], s.pool.available[1], c);
    StepIsReachable(cfg, s, ScaleDown(2));
    StepIsReachable(cfg, Step(cfg, s, ScaleDown(2)), IdleTimeout(c));
  }
}
