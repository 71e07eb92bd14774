/**
 src/alerts/engine.js, submit: the deduplicator records a sighting before the queue is found to be full, so
 that a dropped alert makes its retry a duplicate. Over runs, exactly when every duplicate has a predecessor
 that was queued.
 */
module AlertDrops {
  import opened JsCollections
  import opened AlertQueue
  import opened AlertEngine

  lemma {:induction false} AllowedAppend(cfg: Config, e: Engine, evs: seq<Event>, ev: Event)
    requires Allowed(cfg, e, evs)
    ensures Allowed(cfg, e, evs + [ev]) <==> Enabled(Exec(cfg, e, evs), ev)
    ensures Enabled(Exec(cfg, e, evs), ev) ==> Exec(cfg, e, evs + [ev]) == Step(cfg, Exec(cfg, e, evs), ev)
    decreases |evs|
  {
    if evs == [] {
      assert evs + [ev] == [ev];
    } else {
      assert (evs + [ev])[1..] == evs[1..] + [ev];
      AllowedAppend(cfg, Step(cfg, e, evs[0]), evs[1..], ev);
    }
  }

  lemma {:induction false} AllowedInit(cfg: Config, e: Engine, evs: seq<Event>)
    requires Allowed(cfg, e, evs) && evs != []
    ensures Allowed(cfg, e, evs[..|evs| - 1])
    decreases |evs|
  {
    if |evs| > 1 {
      AllowedInit(cfg, Step(cfg, e, evs[0]), evs[1..]);
      assert evs[1..][..|evs| - 2] == evs[..|evs| - 1][1..];
    }
  }

  // ---------- The submissions of a run ----------

  function CheckOf(ev: Event): Check
    requires ev.Submit?
  {
    Check(GetFingerprint(ev.alert), ev.t)
  }

  function Checks(evs: seq<Event>): seq<Check> {
    if evs == [] then []
    else
      var before, ev := Checks(evs[..|evs| - 1]), evs[|evs| - 1];
      if ev.Submit? then before + [CheckOf(ev)] else before
  }

  /** What each call of submit returned. */
  function Results(cfg: Config, evs: seq<Event>): seq<Submission>
    requires Allowed(cfg, EMPTY, evs)
  {
    if evs == [] then []
    else
      AllowedInit(cfg, EMPTY, evs);
      var init, ev := evs[..|evs| - 1], evs[|evs| - 1];
      var e := Exec(cfg, EMPTY, init);
      if ev.Submit? then Results(cfg, init) + [SubmitStep(cfg, e.core, ev.alert, |e.enqueued|, ev.t).1]
      else Results(cfg, init)
  }

  /** One more submission. */
  lemma SubmitNext(cfg: Config, evs: seq<Event>, alert: Alert, t: Reads)
    requires Allowed(cfg, EMPTY, evs)
    ensures var e, next := Exec(cfg, EMPTY, evs), evs + [Submit(alert, t)];
      && Allowed(cfg, EMPTY, next) && Exec(cfg, EMPTY, next) == Step(cfg, e, Submit(alert, t))
      && Checks(next) == Checks(evs) + [Check(GetFingerprint(alert), t)]
      && Results(cfg, next) == Results(cfg, evs) + [SubmitStep(cfg, e.core, alert, |e.enqueued|, t).1]
  {
    AllowedAppend(cfg, EMPTY, evs, Submit(alert, t));
    assert (evs + [Submit(alert, t)])[..|evs|] == evs;
  }

  lemma OtherNext(cfg: Config, evs: seq<Event>, ev: Event)
    requires Allowed(cfg, EMPTY, evs) && Enabled(Exec(cfg, EMPTY, evs), ev) && !ev.Submit?
    ensures Allowed(cfg, EMPTY, evs + [ev])
    ensures Exec(cfg, EMPTY, evs + [ev]).core.seen == Exec(cfg, EMPTY, evs).core.seen
    ensures Checks(evs + [ev]) == Checks(evs) && Results(cfg, evs + [ev]) == Results(cfg, evs)
  {
    AllowedAppend(cfg, EMPTY, evs, ev);
    assert (evs + [ev])[..|evs|] == evs;
  }

  ghost predicate SeenAsDedup(cfg: Config, evs: seq<Event>)
    requires Allowed(cfg, EMPTY, evs)
  {
    var run := DedupRun(cfg.deduplicationWindowMs, Checks(evs));
    && Exec(cfg, EMPTY, evs).core.seen == run.0 && |run.1| == |Checks(evs)| == |Results(cfg, evs)|
    && forall i :: 0 <= i < |run.1| ==> (run.1[i] <==> Results(cfg, evs)[i] == Duplicate)
  }

  lemma DedupNext(windowMs: int, checks: seq<Check>, c: Check)
    ensures var (seen, verdicts) := DedupRun(windowMs, checks);
      var (seen', duplicate) := DedupStep(seen, c.fingerprint, windowMs, c.t);
      DedupRun(windowMs, checks + [c]) == (seen', verdicts + [duplicate])
  {
    assert (checks + [c])[..|checks|] == checks;
  }

  lemma SubmitKeepsSeen(cfg: Config, evs: seq<Event>, alert: Alert, t: Reads)
    requires Allowed(cfg, EMPTY, evs) && SeenAsDedup(cfg, evs)
    ensures Allowed(cfg, EMPTY, evs + [Submit(alert, t)]) && SeenAsDedup(cfg, evs + [Submit(alert, t)])
  {
    SubmitNext(cfg, evs, alert, t);
    DedupNext(cfg.deduplicationWindowMs, Checks(evs), Check(GetFingerprint(alert), t));
  }

  /** A submission is a duplicate exactly when the deduplicator alone would refuse it. */
  lemma {:induction false} DuplicatesAreRefused(cfg: Config, evs: seq<Event>)
    requires Allowed(cfg, EMPTY, evs)
    ensures SeenAsDedup(cfg, evs)
  {
    if evs != [] {
      var init, ev := evs[..|evs| - 1], evs[|evs| - 1];
      AllowedInit(cfg, EMPTY, evs);
      DuplicatesAreRefused(cfg, init);
      assert evs == init + [ev];
      if ev.Submit? {
        SubmitKeepsSeen(cfg, init, ev.alert, ev.t);
      } else {
        AllowedAppend(cfg, EMPTY, init, ev);
        OtherNext(cfg, init, ev);
      }
    }
  }

  // ---------- Duplicates of what was never queued ----------

  /** The sightings, and what became of each. */
  datatype History = History(checks: seq<Check>, results: seq<Submission>)

  /** The results are those of a run: duplicates are what the deduplicator refuses. */
  ghost predicate Deduplicated(windowMs: int, h: History) {
    && ClockOk(h.checks) && |h.results| == |h.checks|
    && forall i: nat :: i < |h.checks| ==> (h.results[i] == Duplicate <==> Refused(windowMs, h.checks, i))
  }

  /** A duplicate that has no predecessor in its window that was queued. */
  ghost predicate Orphan(windowMs: int, h: History, j: nat)
    requires |h.results| == |h.checks|
  {
    && j < |h.checks| && h.results[j] == Duplicate
    && forall i :: Close(windowMs, h.checks, i, j) ==> h.results[i] != Accepted
  }

  /** A sighting that was dropped for a full queue, and another of its fingerprint within the window. */
  ghost predicate Retried(windowMs: int, h: History, i: int, j: int)
    requires |h.results| == |h.checks|
  {
    Close(windowMs, h.checks, i, j) && h.results[i] == QueueFull
  }

  /** The clock reads 1 or more. */
  predicate Ticking(checks: seq<Check>) { forall i :: 0 <= i < |checks| ==> checks[i].t.record >= 1 }

  lemma OrphanWasDropped(windowMs: int, h: History, j: nat) returns (i: nat)
    requires Deduplicated(windowMs, h) && Orphan(windowMs, h, j)
    ensures Retried(windowMs, h, i, j)
  {
    assert Refused(windowMs, h.checks, j);
    i := LastAccepted(windowMs, h.checks, h.checks[j].fingerprint, j);
    assert Close(windowMs, h.checks, i, j);
  }

  lemma RetryIsOrphan(windowMs: int, h: History, i: nat, j: nat) returns (k: nat)
    requires Deduplicated(windowMs, h) && Ticking(h.checks) && Retried(windowMs, h, i, j)
    ensures Orphan(windowMs, h, k)
  {
    k := NextSighting(h.checks, i, j);
    Remembered(windowMs, h.checks, i, k);
    forall n | Close(windowMs, h.checks, n, k) ensures h.results[n] != Accepted {
      if h.results[n] == Accepted {
        assert n <= i;
        EarlierIsApart(windowMs, h.checks, n, i, k);
      }
    }
  }

  /** Nothing accepted before an accepted sighting is close to what comes behind it. */
  lemma EarlierIsApart(windowMs: int, checks: seq<Check>, n: nat, i: nat, k: nat)
    requires ClockOk(checks) && Ticking(checks) && n < i < k < |checks|
    requires checks[n].fingerprint == checks[i].fingerprint
    requires !Refused(windowMs, checks, n) && !Refused(windowMs, checks, i)
    ensures !Close(windowMs, checks, n, k)
  {
    var m := AcceptedBefore(windowMs, checks, n, i);
  }

  lemma OrphansIff(windowMs: int, h: History)
    requires Deduplicated(windowMs, h) && Ticking(h.checks)
    ensures (exists j: nat :: Orphan(windowMs, h, j)) <==> exists i, j :: Retried(windowMs, h, i, j)
  {
    if j: nat :| Orphan(windowMs, h, j) {
      var i := OrphanWasDropped(windowMs, h, j);
    }
    if i, j :| Retried(windowMs, h, i, j) {
      var k := RetryIsOrphan(windowMs, h, i, j);
    }
  }

  lemma RunIsDeduplicated(cfg: Config, evs: seq<Event>)
    requires Allowed(cfg, EMPTY, evs) && ClockOk(Checks(evs))
    ensures Deduplicated(cfg.deduplicationWindowMs, History(Checks(evs), Results(cfg, evs)))
  {
    DuplicatesAreRefused(cfg, evs);
    forall i: nat | i < |Checks(evs)|
      ensures Results(cfg, evs)[i] == Duplicate <==> Refused(cfg.deduplicationWindowMs, Checks(evs), i)
    {
      VerdictAt(cfg.deduplicationWindowMs, Checks(evs), i);
    }
  }

  /**
   Over every run, whatever batches and clearings go on between: each duplicate has a predecessor in its window
   that was queued, exactly when no alert that was dropped for a full queue is submitted again within the window.
   */
  lemma DuplicatesAreBackedIff(cfg: Config, evs: seq<Event>)
    requires Allowed(cfg, EMPTY, evs) && ClockOk(Checks(evs)) && Ticking(Checks(evs))
    ensures |Results(cfg, evs)| == |Checks(evs)|
    ensures var h := History(Checks(evs), Results(cfg, evs));
      (forall j: nat :: !Orphan(cfg.deduplicationWindowMs, h, j))
        <==> forall i, j :: !Retried(cfg.deduplicationWindowMs, h, i, j)
  {
    RunIsDeduplicated(cfg, evs);
    OrphansIff(cfg.deduplicationWindowMs, History(Checks(evs), Results(cfg, evs)));
  }

  // ---------- A run with such a retry ----------

  lemma FirstIsQueued(cfg: Config, a: Alert, t: Reads)
    requires cfg.maxQueueSize == 1
    ensures var evs := [Submit(a, t)];
      && Allowed(cfg, EMPTY, evs) && Checks(evs) == [Check(GetFingerprint(a), t)] && Results(cfg, evs) == [Accepted]
      && Exec(cfg, EMPTY, evs).core.seen == map[GetFingerprint(a) := t.record]
      && |Exec(cfg, EMPTY, evs).core.items| == 1
  {
    SubmitNext(cfg, [], a, t);
    assert [] + [Submit(a, t)] == [Submit(a, t)];
  }

  lemma SecondIsDropped(cfg: Config, a: Alert, b: Alert, t: Reads, u: Reads)
    requires cfg.maxQueueSize == 1 && GetFingerprint(a) != GetFingerprint(b)
    ensures var evs := [Submit(a, t), Submit(b, u)];
      && Allowed(cfg, EMPTY, evs) && Results(cfg, evs) == [Accepted, QueueFull]
      && Checks(evs) == [Check(GetFingerprint(a), t), Check(GetFingerprint(b), u)]
      && GetFingerprint(b) in Exec(cfg, EMPTY, evs).core.seen
      && Exec(cfg, EMPTY, evs).core.seen[GetFingerprint(b)] == u.record
  {
    FirstIsQueued(cfg, a, t);
    SubmitNext(cfg, [Submit(a, t)], b, u);
    assert [Submit(a, t)] + [Submit(b, u)] == [Submit(a, t), Submit(b, u)];
  }

  /** A queue of one: the second alert is dropped, and its retry is a duplicate of nothing that was queued. */
  lemma RetryIsRefused(cfg: Config, a: Alert, b: Alert, t: Reads, u: Reads, v: Reads)
    requires cfg.maxQueueSize == 1 && GetFingerprint(a) != GetFingerprint(b)
    requires 1 <= t.record <= u.cleanup <= u.check <= u.record <= v.cleanup <= v.check
    requires v.check - u.record < cfg.deduplicationWindowMs
    ensures var evs := [Submit(a, t), Submit(b, u), Submit(b, v)];
      && Allowed(cfg, EMPTY, evs) && |Checks(evs)| == 3 && Results(cfg, evs) == [Accepted, QueueFull, Duplicate]
      && Orphan(cfg.deduplicationWindowMs, History(Checks(evs), Results(cfg, evs)), 2)
  {
    SecondIsDropped(cfg, a, b, t, u);
    SubmitNext(cfg, [Submit(a, t), Submit(b, u)], b, v);
    assert [Submit(a, t), Submit(b, u)] + [Submit(b, v)] == [Submit(a, t), Submit(b, u), Submit(b, v)];
  }
}
