/**
 src/alerts/engine.js, the AlertEngine: submission, overlapping batches and clearing, as steps of
 synchronous code. Delivery to a channel may succeed or fail; the alert is finished either way.
 */
module AlertEngine {
  import opened JsCollections
  import opened AlertQueue

  datatype Config = Config(batchSize: int, deduplicationWindowMs: int, maxQueueSize: int)

  datatype Metrics = Metrics(received: nat, queued: nat, deduplicated: nat, processed: nat, dropped: nat)

  datatype Submission = Accepted | Duplicate | QueueFull

  function PriorityValue(priority: string): int {
    if priority == "HIGH" then 1 else if priority == "LOW" then 3 else 2
  }

  /** What the engine object holds between two steps. */
  datatype Core = Core(seen: map<Fingerprint, int>, items: seq<Item>, metrics: Metrics)

  function SubmitStep(cfg: Config, c: Core, alert: Alert, ticket: nat, t: Reads): (Core, Submission) {
    var m := c.metrics.(received := c.metrics.received + 1);
    var (seen, duplicate) := DedupStep(c.seen, GetFingerprint(alert), cfg.deduplicationWindowMs, t);
    if duplicate then
      (Core(seen, c.items, m.(deduplicated := m.deduplicated + 1)), Duplicate)
    else if |c.items| >= cfg.maxQueueSize then
      (Core(seen, c.items, m.(dropped := m.dropped + 1)), QueueFull)
    else
      (Core(seen, Insert(c.items, Item(alert, PriorityValue(alert.priority), ticket)), m.(queued := m.queued + 1)),
        Accepted)
  }

  function BatchLength(cfg: Config, c: Core): (k: nat)
    ensures k <= |c.items|
  {
    Max(0, Min(cfg.batchSize, |c.items|))
  }

  class AlertEngine {
    const config: Config
    const queue: PriorityQueue
    const deduplicator: Deduplicator
    var metrics: Metrics

    ghost predicate Valid() {
      deduplicator.windowMs == config.deduplicationWindowMs
    }

    function State(): Core
      reads this, queue, deduplicator
    {
      Core(deduplicator.seen, queue.items, metrics)
    }

    constructor (config: Config)
      ensures Valid() && fresh(queue) && fresh(deduplicator)
      ensures this.config == config && State() == Core(map[], [], Metrics(0, 0, 0, 0, 0))
    {
      this.config := config;
      queue := new PriorityQueue();
      deduplicator := new Deduplicator(config.deduplicationWindowMs);
      metrics := Metrics(0, 0, 0, 0, 0);
    }

    method Submit(alert: Alert, ticket: nat, t: Reads) returns (r: Submission)
      requires Valid()
      modifies this, queue, deduplicator
      ensures (State(), r) == SubmitStep(config, old(State()), alert, ticket, t)
    {
      metrics := metrics.(received := metrics.received + 1);
      var duplicate := deduplicator.IsDuplicate(alert, t);
      if duplicate {
        metrics := metrics.(deduplicated := metrics.deduplicated + 1);
        return Duplicate;
      }
      if |queue.items| >= config.maxQueueSize {
        metrics := metrics.(dropped := metrics.dropped + 1);
        return QueueFull;
      }
      queue.Enqueue(alert, PriorityValue(alert.priority), ticket);
      metrics := metrics.(queued := metrics.queued + 1);
      return Accepted;
    }

    /** processBatch up to its first await. */
    method StartBatch() returns (batch: seq<Item>)
      requires Valid()
      modifies queue
      ensures var k := BatchLength(config, old(State()));
        batch == old(queue.items)[..k] && State() == old(State()).(items := old(queue.items)[k..])
    {
      batch := queue.DequeueUpTo(config.batchSize);
    }

    /** The end of processAlert, after every channel was tried. */
    method FinishAlert()
      modifies this
      ensures State() == old(State()).(metrics := old(metrics).(processed := old(metrics).processed + 1))
    {
      metrics := metrics.(processed := metrics.processed + 1);
    }

    method ClearQueue() returns (size: nat)
      modifies queue
      ensures size == |old(queue.items)| && State() == old(State()).(items := [])
    {
      size := queue.Clear();
    }
  }

  // ---------- Runs with overlapping batches ----------

  /**
   `batches` holds, for every processBatch still running, the alerts it has yet to finish. The
   four logs record every alert that was enqueued, dequeued, finished or cleared, in that order.
   */
  datatype Engine = Engine(
    core: Core, batches: seq<seq<Item>>,
    enqueued: seq<Item>, departed: seq<Item>, finished: seq<Item>, cleared: seq<Item>)

  datatype Event = Submit(alert: Alert, t: Reads) | StartBatch | FinishAlert(batch: nat) | ClearQueue

  const EMPTY: Engine := Engine(Core(map[], [], Metrics(0, 0, 0, 0, 0)), [], [], [], [], [])

  predicate Enabled(e: Engine, ev: Event) {
    match ev
    case FinishAlert(b) => b < |e.batches| && e.batches[b] != []
    case _ => true
  }

  function Step(cfg: Config, e: Engine, ev: Event): Engine
    requires Enabled(e, ev)
  {
    match ev
    case Submit(alert, t) =>
      var ticket := |e.enqueued|;
      var (core, r) := SubmitStep(cfg, e.core, alert, ticket, t);
      e.(core := core,
         enqueued := if r == Accepted then e.enqueued + [Item(alert, PriorityValue(alert.priority), ticket)]
           else e.enqueued)
    case StartBatch =>
      var k := BatchLength(cfg, e.core);
      var batch := e.core.items[..k];
      e.(core := e.core.(items := e.core.items[k..]),
         batches := e.batches + [batch], departed := e.departed + batch)
    case FinishAlert(b) =>
      e.(core := e.core.(metrics := e.core.metrics.(processed := e.core.metrics.processed + 1)),
         batches := e.batches[b := e.batches[b][1..]], finished := e.finished + [e.batches[b][0]])
    case ClearQueue =>
      e.(core := e.core.(items := []), cleared := e.cleared + e.core.items)
  }

  /** The alerts dequeued but not finished, over all running batches. */
  function InFlight(batches: seq<seq<Item>>): multiset<Item> {
    if batches == [] then multiset{} else multiset(batches[0]) + InFlight(batches[1..])
  }

  lemma {:induction false} InFlightAppend(batches: seq<seq<Item>>, b: seq<Item>)
    ensures InFlight(batches + [b]) == InFlight(batches) + multiset(b)
  {
    if batches == [] {
      assert batches + [b] == [b];
    } else {
      assert (batches + [b])[1..] == batches[1..] + [b];
      InFlightAppend(batches[1..], b);
    }
  }

  lemma {:induction false} InFlightFinish(batches: seq<seq<Item>>, i: nat)
    requires i < |batches| && batches[i] != []
    ensures InFlight(batches) == InFlight(batches[i := batches[i][1..]]) + multiset{batches[i][0]}
  {
    var after := batches[i := batches[i][1..]];
    assert batches[i] == [batches[i][0]] + batches[i][1..];
    if i == 0 {
      assert after[1..] == batches[1..];
    } else {
      assert after[1..] == batches[1..][i - 1 := batches[i][1..]];
      InFlightFinish(batches[1..], i - 1);
    }
  }

  /** The counters agree with the logs. */
  ghost predicate Counted(e: Engine) {
    var m := e.core.metrics;
    && m.received == m.deduplicated + m.dropped + m.queued
    && m.queued == |e.enqueued|
    && m.processed == |e.finished|
  }

  /** No alert is lost or doubled: each enqueued one waits, is in flight, is finished or was cleared. */
  ghost predicate Conserved(e: Engine) {
    && Accounted(e.enqueued, e.core.items, e.departed, e.cleared)
    && multiset(e.departed) == InFlight(e.batches) + multiset(e.finished)
  }

  ghost predicate Accounted(enqueued: seq<Item>, waiting: seq<Item>, departed: seq<Item>, cleared: seq<Item>) {
    multiset(enqueued) == multiset(waiting) + multiset(departed) + multiset(cleared)
  }

  lemma DequeueAccounted(enqueued: seq<Item>, waiting: seq<Item>, departed: seq<Item>, cleared: seq<Item>, k: nat)
    requires k <= |waiting| && Accounted(enqueued, waiting, departed, cleared)
    ensures Accounted(enqueued, waiting[k..], departed + waiting[..k], cleared)
  {
    assert waiting == waiting[..k] + waiting[k..];
  }

  ghost predicate Increasing(log: seq<Item>) {
    forall i, j :: 0 <= i < j < |log| && log[i].priority == log[j].priority ==> log[i].ticket < log[j].ticket
  }

  ghost predicate AllBelow(items: seq<Item>, n: nat) {
    forall i :: 0 <= i < |items| ==> items[i].ticket < n
  }

  ghost predicate Overtakes(departed: seq<Item>, waiting: seq<Item>) {
    forall i, j :: 0 <= i < |departed| && 0 <= j < |waiting| && departed[i].priority == waiting[j].priority ==>
      departed[i].ticket < waiting[j].ticket
  }

  /** Most urgent first, first come first served among equals, in the queue and across departures. */
  ghost predicate Fair(waiting: seq<Item>, departed: seq<Item>, n: nat) {
    InOrder(waiting) && AllBelow(waiting, n) && AllBelow(departed, n) && Increasing(departed)
      && Overtakes(departed, waiting)
  }

  lemma FairInsert(waiting: seq<Item>, departed: seq<Item>, item: Item)
    requires Fair(waiting, departed, item.ticket)
    ensures Fair(Insert(waiting, item), departed, item.ticket + 1)
  {
    var after := Insert(waiting, item);
    InsertKeepsOrder(waiting, item);
    InsertContents(waiting, item);
    forall j | 0 <= j < |after| ensures after[j] == item || exists i :: 0 <= i < |waiting| && waiting[i] == after[j] {
      assert after[j] in multiset(after);
      assert after[j] == item || after[j] in multiset(waiting);
    }
  }

  lemma FairDequeue(waiting: seq<Item>, departed: seq<Item>, n: nat, k: nat)
    requires k <= |waiting| && Fair(waiting, departed, n)
    ensures Fair(waiting[k..], departed + waiting[..k], n)
    ensures forall i, j :: 0 <= i < k <= j < |waiting| ==> Before(waiting[i], waiting[j])
  {
    var log := departed + waiting[..k];
    forall i, j | 0 <= i < j < |log| && log[i].priority == log[j].priority
      ensures log[i].ticket < log[j].ticket
    {
      if i >= |departed| {
        assert Before(waiting[i - |departed|], waiting[j - |departed|]);
      }
    }
    forall i, j | 0 <= i < |log| && 0 <= j < |waiting[k..]| && log[i].priority == waiting[k..][j].priority
      ensures log[i].ticket < waiting[k..][j].ticket
    {
      if i >= |departed| {
        assert Before(waiting[i - |departed|], waiting[k + j]);
      }
    }
  }

  lemma InsertAccounted(enqueued: seq<Item>, waiting: seq<Item>, departed: seq<Item>, cleared: seq<Item>, item: Item)
    requires Accounted(enqueued, waiting, departed, cleared)
    ensures Accounted(enqueued + [item], Insert(waiting, item), departed, cleared)
  {
    InsertContents(waiting, item);
  }

  lemma FinishAccounted(departed: seq<Item>, batches: seq<seq<Item>>, finished: seq<Item>, i: nat)
    requires i < |batches| && batches[i] != []
    requires multiset(departed) == InFlight(batches) + multiset(finished)
    ensures multiset(departed) == InFlight(batches[i := batches[i][1..]]) + multiset(finished + [batches[i][0]])
  {
    InFlightFinish(batches, i);
  }

  lemma StepConserves(cfg: Config, e: Engine, ev: Event)
    requires Enabled(e, ev) && Conserved(e)
    ensures Conserved(Step(cfg, e, ev))
  {
    match ev
    case Submit(alert, t) =>
      InsertAccounted(e.enqueued, e.core.items, e.departed, e.cleared,
        Item(alert, PriorityValue(alert.priority), |e.enqueued|));
    case StartBatch =>
      DequeueAccounted(e.enqueued, e.core.items, e.departed, e.cleared, BatchLength(cfg, e.core));
      InFlightAppend(e.batches, e.core.items[..BatchLength(cfg, e.core)]);
    case FinishAlert(b) =>
      FinishAccounted(e.departed, e.batches, e.finished, b);
    case ClearQueue =>
  }

  lemma StepCounts(cfg: Config, e: Engine, ev: Event)
    requires Enabled(e, ev) && Counted(e)
    ensures Counted(Step(cfg, e, ev))
  {
  }

  lemma StepIsFair(cfg: Config, e: Engine, ev: Event)
    requires Enabled(e, ev) && Fair(e.core.items, e.departed, |e.enqueued|)
    ensures var e' := Step(cfg, e, ev); Fair(e'.core.items, e'.departed, |e'.enqueued|)
  {
    match ev
    case Submit(alert, t) =>
      FairInsert(e.core.items, e.departed, Item(alert, PriorityValue(alert.priority), |e.enqueued|));
    case StartBatch =>
      FairDequeue(e.core.items, e.departed, |e.enqueued|, BatchLength(cfg, e.core));
    case FinishAlert(b) =>
    case ClearQueue =>
  }

  ghost predicate Inv(e: Engine) {
    Counted(e) && Conserved(e) && Fair(e.core.items, e.departed, |e.enqueued|)
  }

  lemma StepKeepsInv(cfg: Config, e: Engine, ev: Event)
    requires Enabled(e, ev) && Inv(e)
    ensures Inv(Step(cfg, e, ev))
  {
    StepCounts(cfg, e, ev);
    assert Conserved(Step(cfg, e, ev)) by {
      StepConserves(cfg, e, ev);
    }
    StepIsFair(cfg, e, ev);
  }

  ghost predicate Allowed(cfg: Config, e: Engine, evs: seq<Event>)
    decreases |evs|
  {
    evs == [] || (Enabled(e, evs[0]) && Allowed(cfg, Step(cfg, e, evs[0]), evs[1..]))
  }

  function Exec(cfg: Config, e: Engine, evs: seq<Event>): Engine
    requires Allowed(cfg, e, evs)
    decreases |evs|
  {
    if evs == [] then e else Exec(cfg, Step(cfg, e, evs[0]), evs[1..])
  }

  lemma {:induction false} ExecKeeps(cfg: Config, e: Engine, evs: seq<Event>)
    requires Allowed(cfg, e, evs) && Inv(e)
    ensures Inv(Exec(cfg, e, evs))
    decreases |evs|
  {
    if evs != [] {
      StepKeepsInv(cfg, e, evs[0]);
      ExecKeeps(cfg, Step(cfg, e, evs[0]), evs[1..]);
    }
  }

  /** Every alert of every run is accounted for, by identity and in the counters. */
  lemma AlertsAreConserved(cfg: Config, evs: seq<Event>)
    requires Allowed(cfg, EMPTY, evs)
    ensures var e := Exec(cfg, EMPTY, evs);
      && multiset(e.enqueued)
        == multiset(e.core.items) + InFlight(e.batches) + multiset(e.finished) + multiset(e.cleared)
      && e.core.metrics.received == e.core.metrics.deduplicated + e.core.metrics.dropped + e.core.metrics.queued
      && e.core.metrics.queued == |e.core.items| + |InFlight(e.batches)| + e.core.metrics.processed + |e.cleared|
  {
    ExecKeeps(cfg, EMPTY, evs);
    var e := Exec(cfg, EMPTY, evs);
    assert |e.enqueued| == |multiset(e.enqueued)|;
  }

  /**
   A batch takes only alerts that come before everything it leaves waiting, and over the whole run
   alerts of one priority leave in the order of their submission.
   */
  lemma AlertsLeaveInOrder(cfg: Config, evs: seq<Event>)
    requires Allowed(cfg, EMPTY, evs)
    ensures var e := Exec(cfg, EMPTY, evs);
      var k := BatchLength(cfg, e.core);
      && (forall i, j :: 0 <= i < k <= j < |e.core.items| ==> Before(e.core.items[i], e.core.items[j]))
      && Increasing(e.departed)
      && Overtakes(e.departed, e.core.items)
  {
    ExecKeeps(cfg, EMPTY, evs);
  }
}
