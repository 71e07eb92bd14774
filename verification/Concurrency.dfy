/**
 src/engine/concurrency.js: the FIFO semaphore and `withLimit`, as a step machine whose steps
 are the stretches of synchronous code between awaits.
 */
module Concurrency {
  import opened JsCollections

  /** One invocation of `withLimit`; it stands for the promise that acquire() queues. */
  type Call = nat

  datatype Permits = Permits(max: int, current: int, queue: seq<Call>)

  /** The state after acquire(), and whether it returned without waiting. */
  function AcquireStep(p: Permits, c: Call): (Permits, bool) {
    if p.current < p.max then (p.(current := p.current + 1), true)
    else (p.(queue := p.queue + [c]), false)
  }

  /** The state after release(), and the waiter it resolved, if any. */
  function ReleaseStep(p: Permits): (Permits, Option<Call>) {
    if |p.queue| > 0 then (p.(queue := p.queue[1..]), Some(p.queue[0]))
    else (p.(current := p.current - 1), None)
  }

  class Semaphore {
    const maxConcurrency: int
    var current: int
    var queue: seq<Call>

    function State(): Permits
      reads this
    {
      Permits(maxConcurrency, current, queue)
    }

    constructor (max: int)
      ensures State() == Permits(max, 0, [])
    {
      maxConcurrency, current, queue := max, 0, [];
    }

    method Acquire(c: Call) returns (immediate: bool)
      modifies this
      ensures (State(), immediate) == AcquireStep(old(State()), c)
    {
      if current < maxConcurrency {
        current := current + 1;
        return true;
      }
      queue := queue + [c];
      return false;
    }

    method Release() returns (resolved: Option<Call>)
      modifies this
      ensures (State(), resolved) == ReleaseStep(old(State()))
    {
      if |queue| > 0 {
        resolved := Some(queue[0]);
        queue := queue[1..];
      } else {
        resolved := None;
        current := current - 1;
      }
    }
  }

  /** `new ConcurrencyLimiter(max)`: None where the constructor throws. */
  method NewLimiter(max: int) returns (r: Option<Semaphore>)
    ensures r.Some? <==> max >= 1
    ensures r.Some? ==> fresh(r.value) && r.value.State() == Permits(max, 0, [])
  {
    if max < 1 {
      return None;
    }
    var s := new Semaphore(max);
    return Some(s);
  }

  // ---------- Interleaved withLimit calls ----------

  /** `Granted`: holds a permit, but the continuation after `await acquire()` has not run yet. */
  datatype Phase = Idle | Waiting | Granted | Running | Done

  /** `arrivals` and `grants` record the order of acquire() calls and of permits handed out. */
  datatype Limiter = Limiter(
    permits: Permits, phase: map<Call, Phase>, arrivals: seq<Call>, grants: seq<Call>)

  datatype Event = Arrive(c: Call) | Resume(c: Call) | Finish(c: Call)

  function Init(max: int, calls: set<Call>): Limiter {
    Limiter(Permits(max, 0, []), map c | c in calls :: Idle, [], [])
  }

  predicate Enabled(s: Limiter, e: Event) {
    e.c in s.phase &&
    match e
    case Arrive(c) => s.phase[c] == Idle
    case Resume(c) => s.phase[c] == Granted
    case Finish(c) => s.phase[c] == Running
  }

  function Grant(s: Limiter, c: Call): Limiter {
    s.(phase := s.phase[c := Granted], grants := s.grants + [c])
  }

  /** `Finish` is the `finally` block: it is the same whether `fn` returned or threw. */
  function Step(s: Limiter, e: Event): Limiter
    requires Enabled(s, e)
  {
    match e
    case Arrive(c) =>
      var (p, immediate) := AcquireStep(s.permits, c);
      var s' := s.(permits := p, arrivals := s.arrivals + [c]);
      if immediate then Grant(s', c) else s'.(phase := s.phase[c := Waiting])
    case Resume(c) =>
      s.(phase := s.phase[c := Running])
    case Finish(c) =>
      var (p, woken) := ReleaseStep(s.permits);
      var s' := s.(permits := p, phase := s.phase[c := Done]);
      match woken
      case None => s'
      case Some(w) => Grant(s', w)
  }

  ghost predicate Allowed(s: Limiter, es: seq<Event>)
    decreases |es|
  {
    es == [] || (Enabled(s, es[0]) && Allowed(Step(s, es[0]), es[1..]))
  }

  function Exec(s: Limiter, es: seq<Event>): Limiter
    requires Allowed(s, es)
    decreases |es|
  {
    if es == [] then s else Exec(Step(s, es[0]), es[1..])
  }

  function In(m: map<Call, Phase>, p: Phase): set<Call> { set c | c in m && m[c] == p }

  ghost predicate Inv(s: Limiter) {
    && NoDup(s.permits.queue)
    && (forall c :: c in s.permits.queue <==> c in s.phase && s.phase[c] == Waiting)
    // the held permits are exactly the counted ones, and never too many
    && s.permits.current == |In(s.phase, Granted)| + |In(s.phase, Running)| <= s.permits.max
    // no lost wakeup: nobody waits while a permit is free
    && (s.permits.queue != [] ==> s.permits.current == s.permits.max)
    // permits are handed out in arrival order, and the queue is what is still owed
    && s.arrivals == s.grants + s.permits.queue
  }

  /** The synchronous stretches still to run: three per call. */
  function Remaining(s: Limiter): nat {
    3 * |In(s.phase, Idle)| + 2 * |In(s.phase, Waiting)| + 2 * |In(s.phase, Granted)| + |In(s.phase, Running)|
  }

  lemma MovePhase(m: map<Call, Phase>, c: Call, p: Phase)
    requires c in m && m[c] != p
    ensures |In(m[c := p], p)| == |In(m, p)| + 1
    ensures |In(m[c := p], m[c])| == |In(m, m[c])| - 1
    ensures forall q :: q != p && q != m[c] ==> In(m[c := p], q) == In(m, q)
  {
    assert In(m[c := p], p) == In(m, p) + {c};
    assert In(m[c := p], m[c]) == In(m, m[c]) - {c};
  }

  lemma FinishKeepsInv(s: Limiter, c: Call)
    requires s.permits.max >= 1 && Inv(s) && Enabled(s, Finish(c))
    ensures Inv(Step(s, Finish(c)))
    ensures Remaining(Step(s, Finish(c))) == Remaining(s) - 1
  {
    MovePhase(s.phase, c, Done);
    var q := s.permits.queue;
    if |q| > 0 {
      var w := q[0];
      assert w in q;
      MovePhase(s.phase[c := Done], w, Granted);
      assert s.grants + [w] + q[1..] == s.grants + q;
      assert forall x :: x in q <==> x == w || x in q[1..];
    }
  }

  lemma StepKeepsInv(s: Limiter, e: Event)
    requires s.permits.max >= 1 && Inv(s) && Enabled(s, e)
    ensures Inv(Step(s, e))
    ensures Step(s, e).permits.max == s.permits.max && Step(s, e).phase.Keys == s.phase.Keys
    ensures Remaining(Step(s, e)) == Remaining(s) - 1
  {
    match e
    case Arrive(c) =>
      MovePhase(s.phase, c, if s.permits.current < s.permits.max then Granted else Waiting);
    case Resume(c) =>
      MovePhase(s.phase, c, Running);
    case Finish(c) =>
      FinishKeepsInv(s, c);
      if |s.permits.queue| > 0 {
        assert s.permits.queue[0] in s.permits.queue;
      }
  }

  lemma {:induction false} ExecKeepsInv(s: Limiter, es: seq<Event>)
    requires s.permits.max >= 1 && Inv(s) && Allowed(s, es)
    ensures Inv(Exec(s, es))
    ensures Exec(s, es).permits.max == s.permits.max && Exec(s, es).phase.Keys == s.phase.Keys
    ensures Remaining(Exec(s, es)) + |es| == Remaining(s)
    decreases |es|
  {
    if es != [] {
      StepKeepsInv(s, es[0]);
      ExecKeepsInv(Step(s, es[0]), es[1..]);
    }
  }

  ghost predicate AllDone(s: Limiter) { forall c :: c in s.phase ==> s.phase[c] == Done }

  /** As long as some call has not finished, some step can be taken. */
  lemma NoDeadlock(s: Limiter)
    requires s.permits.max >= 1 && Inv(s) && !AllDone(s)
    ensures exists e :: Enabled(s, e)
  {
    var c :| c in s.phase && s.phase[c] != Done;
    match s.phase[c]
    case Idle => assert Enabled(s, Arrive(c));
    case Granted => assert Enabled(s, Resume(c));
    case Running => assert Enabled(s, Finish(c));
    case Waiting =>
      assert c in s.permits.queue;
      if In(s.phase, Granted) != {} {
        var g :| g in In(s.phase, Granted);
        assert Enabled(s, Resume(g));
      } else {
        var r :| r in In(s.phase, Running);
        assert Enabled(s, Finish(r));
      }
  }

  lemma InitInv(max: int, calls: set<Call>)
    requires max >= 1
    ensures Inv(Init(max, calls)) && Remaining(Init(max, calls)) == 3 * |calls|
  {
    var m := Init(max, calls).phase;
    assert In(m, Idle) == calls;
    assert In(m, Waiting) == In(m, Granted) == In(m, Running) == {};
  }

  /** Safety of every interleaving of any batch of calls. */
  lemma LimitIsRespected(max: int, calls: set<Call>, es: seq<Event>)
    requires max >= 1 && Allowed(Init(max, calls), es)
    ensures var s := Exec(Init(max, calls), es);
      && |In(s.phase, Granted)| + |In(s.phase, Running)| == s.permits.current <= max
      && (s.permits.queue != [] ==> s.permits.current == max)
      && s.grants <= s.arrivals
      && s.permits.queue == s.arrivals[|s.grants|..]
  {
    InitInv(max, calls);
    ExecKeepsInv(Init(max, calls), es);
  }

  /** Liveness: a run that cannot be extended has finished every call, after three steps each. */
  lemma EveryBatchDrains(max: int, calls: set<Call>, es: seq<Event>)
    requires max >= 1 && Allowed(Init(max, calls), es)
    ensures |es| <= 3 * |calls|
    ensures var s := Exec(Init(max, calls), es);
      (forall e :: !Enabled(s, e)) <==> AllDone(s)
    ensures AllDone(Exec(Init(max, calls), es)) <==> |es| == 3 * |calls|
  {
    InitInv(max, calls);
    ExecKeepsInv(Init(max, calls), es);
    var s := Exec(Init(max, calls), es);
    if AllDone(s) {
      assert In(s.phase, Idle) == In(s.phase, Waiting) == In(s.phase, Granted) == In(s.phase, Running) == {};
    } else {
      NoDeadlock(s);
      var e :| Enabled(s, e);
      StepKeepsInv(s, e);
    }
  }
}
