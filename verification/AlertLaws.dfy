/**
 src/alerts/engine.js over whole runs, in terms of the alerts themselves: HIGH leaves before anything else and LOW
 behind everything else, the queue keeps its bound, and how many batches it takes to drain it.
 */
module AlertLaws {
  import opened JsCollections
  import opened AlertQueue
  import opened AlertEngine

  // ---------- Urgency ----------

  predicate High(x: Item) { x.alert.priority == "HIGH" }

  predicate Low(x: Item) { x.alert.priority == "LOW" }

  /** An alert may leave before another: no HIGH one waits for it unless it is HIGH, and if it is LOW the other is. */
  predicate MayPrecede(a: Item, b: Item) {
    && (High(b) ==> High(a)) && (Low(a) ==> Low(b))
    && (High(a) == High(b) && Low(a) == Low(b) ==> a.ticket < b.ticket)
  }

  ghost predicate Valued(items: seq<Item>) {
    forall i :: 0 <= i < |items| ==> items[i].priority == PriorityValue(items[i].alert.priority)
  }

  lemma InsertKeepsValued(items: seq<Item>, item: Item)
    requires Valued(items) && item.priority == PriorityValue(item.alert.priority)
    ensures Valued(Insert(items, item))
  {
    InsertContents(items, item);
    var after := Insert(items, item);
    forall i | 0 <= i < |after| ensures after[i].priority == PriorityValue(after[i].alert.priority) {
      assert after[i] in multiset(after);
      assert after[i] == item || after[i] in multiset(items);
    }
  }

  lemma {:induction false} QueueIsValued(cfg: Config, e: Engine, evs: seq<Event>)
    requires Allowed(cfg, e, evs) && Valued(e.core.items)
    ensures Valued(Exec(cfg, e, evs).core.items)
    decreases |evs|
  {
    if evs != [] {
      if evs[0].Submit? {
        InsertKeepsValued(e.core.items,
          Item(evs[0].alert, PriorityValue(evs[0].alert.priority), |e.enqueued|));
      }
      QueueIsValued(cfg, Step(cfg, e, evs[0]), evs[1..]);
    }
  }

  lemma BeforeMayPrecede(a: Item, b: Item)
    requires a.priority == PriorityValue(a.alert.priority) && b.priority == PriorityValue(b.alert.priority)
    ensures Before(a, b) ==> MayPrecede(a, b)
  {
  }

  /**
   In every run the queue is sorted by urgency, so that each batch takes HIGH alerts before any others, LOW ones only
   once no others wait, and among equals those submitted first.
   */
  lemma UrgentLeaveFirst(cfg: Config, evs: seq<Event>, i: nat, j: nat)
    requires Allowed(cfg, EMPTY, evs) && i < j < |Exec(cfg, EMPTY, evs).core.items|
    ensures var items := Exec(cfg, EMPTY, evs).core.items; MayPrecede(items[i], items[j])
  {
    var items := Exec(cfg, EMPTY, evs).core.items;
    ExecKeeps(cfg, EMPTY, evs);
    QueueIsValued(cfg, EMPTY, evs);
    assert Before(items[i], items[j]);
    BeforeMayPrecede(items[i], items[j]);
  }

  // ---------- Submitting ----------

  lemma DuplicateIs(seen: map<Fingerprint, int>, f: Fingerprint, windowMs: int, t: Reads)
    ensures DedupStep(seen, f, windowMs, t).1 <==>
      f in seen && seen[f] != 0 && t.check - seen[f] < windowMs && t.cleanup - seen[f] <= windowMs
  {
  }

  /**
   submit answers Duplicate exactly when the same fingerprint was accepted within the window, at a time other than 0;
   QueueFull exactly when there is then no room; and else the alert is queued, everything else staying in order.
   */
  lemma SubmitAnswers(cfg: Config, c: Core, alert: Alert, ticket: nat, t: Reads)
    ensures var (after, answer) := SubmitStep(cfg, c, alert, ticket, t);
      var f := GetFingerprint(alert);
      var again := f in c.seen && c.seen[f] != 0 && t.check - c.seen[f] < cfg.deduplicationWindowMs
                     && t.cleanup - c.seen[f] <= cfg.deduplicationWindowMs;
      && (answer == Duplicate <==> again)
      && (answer == QueueFull <==> !again && |c.items| >= cfg.maxQueueSize)
      && (answer != Accepted ==> after.items == c.items)
      && (answer == Accepted ==>
        multiset(after.items) == multiset(c.items) + multiset{Item(alert, PriorityValue(alert.priority), ticket)})
  {
    DuplicateIs(c.seen, GetFingerprint(alert), cfg.deduplicationWindowMs, t);
    InsertContents(c.items, Item(alert, PriorityValue(alert.priority), ticket));
  }

  /** The queue never holds more than its maximum. */
  lemma {:induction false} QueueIsBounded(cfg: Config, e: Engine, evs: seq<Event>)
    requires Allowed(cfg, e, evs) && |e.core.items| <= Max(0, cfg.maxQueueSize)
    ensures |Exec(cfg, e, evs).core.items| <= Max(0, cfg.maxQueueSize)
    decreases |evs|
  {
    if evs != [] {
      QueueIsBounded(cfg, Step(cfg, e, evs[0]), evs[1..]);
    }
  }

  // ---------- Draining ----------

  function Batches(n: nat): seq<Event> { seq(n, _ => StartBatch) }

  lemma BatchesNext(n: nat)
    requires n > 0
    ensures Batches(n)[0] == StartBatch && Batches(n)[1..] == Batches(n - 1)
  {
  }

  lemma {:induction false} Drain(cfg: Config, e: Engine, n: nat)
    ensures Allowed(cfg, e, Batches(n))
    ensures |Exec(cfg, e, Batches(n)).core.items| == Max(0, |e.core.items| - n * Max(0, cfg.batchSize))
    decreases n
  {
    if n > 0 {
      BatchesNext(n);
      Drain(cfg, Step(cfg, e, StartBatch), n - 1);
      assert n * Max(0, cfg.batchSize) == (n - 1) * Max(0, cfg.batchSize) + Max(0, cfg.batchSize);
    }
  }

  /** n batches leave nothing waiting exactly when they have room for everything; with no batch size, none ever do. */
  lemma DrainedIff(cfg: Config, e: Engine, n: nat)
    ensures Allowed(cfg, e, Batches(n))
    ensures cfg.batchSize >= 0 ==>
      (Exec(cfg, e, Batches(n)).core.items == [] <==> |e.core.items| <= n * cfg.batchSize)
    ensures cfg.batchSize <= 0 ==>
      (Exec(cfg, e, Batches(n)).core.items == [] <==> e.core.items == [])
  {
    Drain(cfg, e, n);
  }
}
