/**
 src/alerts/channels.js, the CircuitBreaker, with any number of calls in flight. A call settles
 whenever its function does, whatever state the breaker has moved to meanwhile.
 */
module CircuitBreakers {
  import opened JsCollections

  datatype Circuit = CLOSED | OPEN | HALF_OPEN

  datatype Config = Config(failureThreshold: int, resetTimeout: int, halfOpenMaxCalls: int)

  datatype Breaker = Breaker(
    state: Circuit, failureCount: nat, successCount: nat, halfOpenCalls: nat, lastFailureTime: Option<int>)

  function TransitionTo(b: Breaker, newState: Circuit): Breaker {
    Breaker(newState, if newState == CLOSED then 0 else b.failureCount, 0, 0, b.lastFailureTime)
  }

  /** `Date.now() - this.lastFailureTime >= resetTimeout`, where null counts as 0. */
  predicate ResetDue(cfg: Config, b: Breaker, now: int) {
    now - (if b.lastFailureTime.Some? then b.lastFailureTime.value else 0) >= cfg.resetTimeout
  }

  /** execute() up to the call of `fn`; false where it throws instead. */
  function Admit(cfg: Config, b: Breaker, now: int): (Breaker, bool) {
    if b.state == OPEN && !ResetDue(cfg, b, now) then (b, false)
    else
      var b := if b.state == OPEN then TransitionTo(b, HALF_OPEN) else b;
      if b.state == HALF_OPEN && b.halfOpenCalls >= cfg.halfOpenMaxCalls then (b, false)
      else if b.state == HALF_OPEN then (b.(halfOpenCalls := b.halfOpenCalls + 1), true)
      else (b, true)
  }

  function OnSuccess(cfg: Config, b: Breaker): Breaker {
    var b := b.(failureCount := 0);
    if b.state == HALF_OPEN then
      var b := b.(successCount := b.successCount + 1);
      if b.successCount >= cfg.halfOpenMaxCalls then TransitionTo(b, CLOSED) else b
    else b
  }

  function OnFailure(cfg: Config, b: Breaker, now: int): Breaker {
    var b := b.(failureCount := b.failureCount + 1, lastFailureTime := Some(now));
    if b.state == HALF_OPEN || b.failureCount >= cfg.failureThreshold then TransitionTo(b, OPEN) else b
  }

  class CircuitBreaker {
    const config: Config
    var state: Circuit
    var failureCount: nat
    var successCount: nat
    var halfOpenCalls: nat
    var lastFailureTime: Option<int>

    function State(): Breaker
      reads this
    {
      Breaker(state, failureCount, successCount, halfOpenCalls, lastFailureTime)
    }

    constructor (config: Config)
      ensures this.config == config && State() == Breaker(CLOSED, 0, 0, 0, None)
    {
      this.config := config;
      state, failureCount, successCount, halfOpenCalls, lastFailureTime := CLOSED, 0, 0, 0, None;
    }

    method ExecuteStart(now: int) returns (admitted: bool)
      modifies this
      ensures (State(), admitted) == Admit(config, old(State()), now)
    {
      if state == OPEN {
        if now - (if lastFailureTime.Some? then lastFailureTime.value else 0) >= config.resetTimeout {
          Transition(HALF_OPEN);
        } else {
          return false;
        }
      }
      if state == HALF_OPEN && halfOpenCalls >= config.halfOpenMaxCalls {
        return false;
      }
      if state == HALF_OPEN {
        halfOpenCalls := halfOpenCalls + 1;
      }
      return true;
    }

    method Succeed()
      modifies this
      ensures State() == OnSuccess(config, old(State()))
    {
      failureCount := 0;
      if state == HALF_OPEN {
        successCount := successCount + 1;
        if successCount >= config.halfOpenMaxCalls {
          Transition(CLOSED);
        }
      }
    }

    method Fail(now: int)
      modifies this
      ensures State() == OnFailure(config, old(State()), now)
    {
      failureCount := failureCount + 1;
      lastFailureTime := Some(now);
      if state == HALF_OPEN {
        Transition(OPEN);
      } else if failureCount >= config.failureThreshold {
        Transition(OPEN);
      }
    }

    method Transition(newState: Circuit)
      modifies this
      ensures State() == TransitionTo(old(State()), newState)
    {
      state := newState;
      successCount := 0;
      halfOpenCalls := 0;
      if newState == CLOSED {
        failureCount := 0;
      }
    }
  }

  // ---------- Overlapping calls ----------

  datatype Call = Call(id: nat)

  /** `epoch` numbers the half-open periods; a call admitted as a probe remembers its period. */
  datatype Run = Run(b: Breaker, epoch: nat, inFlight: map<Call, Option<nat>>)

  datatype Event = Execute(c: Call, now: int) | Settle(c: Call, ok: bool, now: int)

  const START: Run := Run(Breaker(CLOSED, 0, 0, 0, None), 0, map[])

  predicate Enabled(r: Run, e: Event) {
    match e
    case Execute(c, _) => c !in r.inFlight
    case Settle(c, _, _) => c in r.inFlight
  }

  function Step(cfg: Config, r: Run, e: Event): Run
    requires Enabled(r, e)
  {
    match e
    case Execute(c, now) =>
      var (b, admitted) := Admit(cfg, r.b, now);
      var epoch := if r.b.state == OPEN && b.state == HALF_OPEN then r.epoch + 1 else r.epoch;
      Run(b, epoch, if admitted then r.inFlight[c := if b.state == HALF_OPEN then Some(epoch) else None]
        else r.inFlight)
    case Settle(c, ok, now) =>
      Run(if ok then OnSuccess(cfg, r.b) else OnFailure(cfg, r.b, now), r.epoch, r.inFlight - {c})
  }

  ghost predicate Allowed(cfg: Config, es: seq<Event>)
    decreases |es|, 0
  {
    es == [] || (Allowed(cfg, es[..|es| - 1]) && Enabled(Exec(cfg, es[..|es| - 1]), es[|es| - 1]))
  }

  ghost function Exec(cfg: Config, es: seq<Event>): Run
    requires Allowed(cfg, es)
    decreases |es|, 1
  {
    if es == [] then START else Step(cfg, Exec(cfg, es[..|es| - 1]), es[|es| - 1])
  }

  /** The unfinished probes of the current half-open period. */
  function Probes(r: Run): set<Call> {
    set c | c in r.inFlight && r.inFlight[c] == Some(r.epoch)
  }

  ghost predicate Inv(cfg: Config, r: Run) {
    && (forall c :: c in r.inFlight && r.inFlight[c].Some? ==> r.inFlight[c].value <= r.epoch)
    && (r.b.state == CLOSED ==> cfg.failureThreshold >= 1 ==> r.b.failureCount < cfg.failureThreshold)
    && (r.b.state == OPEN ==> r.b.lastFailureTime.Some?)
    && (r.b.state == HALF_OPEN ==>
          && r.b.successCount + |Probes(r)| >= r.b.halfOpenCalls
          && (cfg.halfOpenMaxCalls >= 1 ==> r.b.successCount < cfg.halfOpenMaxCalls)
          && r.b.halfOpenCalls <= Max(0, cfg.halfOpenMaxCalls))
  }

  lemma ExecuteKeepsInv(cfg: Config, r: Run, c: Call, now: int)
    requires Inv(cfg, r) && Enabled(r, Execute(c, now))
    ensures Inv(cfg, Step(cfg, r, Execute(c, now)))
  {
    var r' := Step(cfg, r, Execute(c, now));
    if c in r'.inFlight && r'.b.state == HALF_OPEN {
      if r.b.state == HALF_OPEN {
        assert Probes(r') == Probes(r) + {c};
      } else {
        assert Probes(r') == {c};
      }
    } else if r'.b.state == HALF_OPEN && r.b.state == HALF_OPEN {
      assert Probes(r') == Probes(r);
    }
  }

  lemma SettleKeepsInv(cfg: Config, r: Run, c: Call, ok: bool, now: int)
    requires Inv(cfg, r) && Enabled(r, Settle(c, ok, now))
    ensures Inv(cfg, Step(cfg, r, Settle(c, ok, now)))
  {
    var r' := Step(cfg, r, Settle(c, ok, now));
    if c in Probes(r) {
      assert Probes(r') == Probes(r) - {c};
    } else {
      assert Probes(r') == Probes(r);
    }
  }

  lemma {:induction false} ExecKeepsInv(cfg: Config, es: seq<Event>)
    requires Allowed(cfg, es)
    ensures Inv(cfg, Exec(cfg, es))
  {
    if es != [] {
      var r := Exec(cfg, es[..|es| - 1]);
      ExecKeepsInv(cfg, es[..|es| - 1]);
      match es[|es| - 1]
      case Execute(c, now) => ExecuteKeepsInv(cfg, r, c, now);
      case Settle(c, ok, now) => SettleKeepsInv(cfg, r, c, ok, now);
    }
  }

  /** No further call can pass: half-open and out of probes. */
  predicate Full(cfg: Config, r: Run) {
    r.b.state == HALF_OPEN && r.b.halfOpenCalls >= cfg.halfOpenMaxCalls
  }

  /** A full breaker is always waiting for a probe, and that probe's end moves it on. */
  lemma FullBreakerHasAProbe(cfg: Config, es: seq<Event>)
    requires cfg.halfOpenMaxCalls >= 1 && Allowed(cfg, es) && Full(cfg, Exec(cfg, es))
    ensures Probes(Exec(cfg, es)) != {}
    ensures var r := Exec(cfg, es);
      forall c, now :: c in Probes(r) ==>
        && Step(cfg, r, Settle(c, false, now)).b.state == OPEN
        && var b := Step(cfg, r, Settle(c, true, now)).b;
           b.state == CLOSED || (b.state == HALF_OPEN && b.successCount == r.b.successCount + 1)
  {
    ExecKeepsInv(cfg, es);
  }

  /** With no probe budget, a half-open breaker without calls in flight refuses everything for ever. */
  lemma {:induction false} StuckWithoutBudget(cfg: Config, r: Run, calls: seq<(Call, int)>)
    requires cfg.halfOpenMaxCalls <= 0 && r.b.state == HALF_OPEN && r.inFlight == map[]
    ensures AfterCalls(cfg, r, calls) == r
  {
    if calls != [] {
      StuckWithoutBudget(cfg, r, calls[1..]);
    }
  }

  function AfterCalls(cfg: Config, r: Run, calls: seq<(Call, int)>): Run
    decreases |calls|
  {
    if calls == [] || calls[0].0 in r.inFlight then r
    else AfterCalls(cfg, Step(cfg, r, Execute(calls[0].0, calls[0].1)), calls[1..])
  }

  /**
   Exactly when the breaker can never be stuck, that is full with no probe left to move it: when
   it is configured with at least one half-open call.
   */
  lemma NeverStuckIffBudget(cfg: Config)
    ensures (forall es :: Allowed(cfg, es) && Full(cfg, Exec(cfg, es)) ==> Exec(cfg, es).inFlight != map[])
       <==> cfg.halfOpenMaxCalls >= 1
  {
    if cfg.halfOpenMaxCalls >= 1 {
      forall es | Allowed(cfg, es) && Full(cfg, Exec(cfg, es)) ensures Exec(cfg, es).inFlight != map[] {
        FullBreakerHasAProbe(cfg, es);
        var c :| c in Probes(Exec(cfg, es));
        assert c in Exec(cfg, es).inFlight;
      }
    } else {
      var es := ReachesStuck(cfg);
    }
  }

  lemma AllowedAppend(cfg: Config, es: seq<Event>, e: Event)
    requires Allowed(cfg, es) && Enabled(Exec(cfg, es), e)
    ensures Allowed(cfg, es + [e]) && Exec(cfg, es + [e]) == Step(cfg, Exec(cfg, es), e)
  {
    assert (es + [e])[..|es|] == es;
  }

  /** Failing calls one after the other until the breaker opens. */
  lemma {:induction false} FailRepeatedly(cfg: Config, n: nat) returns (es: seq<Event>)
    ensures Allowed(cfg, es) && Exec(cfg, es).inFlight == map[] && Exec(cfg, es).b.lastFailureTime in {None, Some(0)}
    ensures Exec(cfg, es).b.state == OPEN || (Exec(cfg, es).b.state == CLOSED && Exec(cfg, es).b.failureCount == n)
    ensures Exec(cfg, es).b.state == OPEN ==> Exec(cfg, es).b.lastFailureTime == Some(0)
    ensures Exec(cfg, es).b.state == CLOSED ==> n == 0 || n < cfg.failureThreshold
  {
    if n == 0 {
      es := [];
    } else {
      es := FailRepeatedly(cfg, n - 1);
      if Exec(cfg, es).b.state == CLOSED {
        AllowedAppend(cfg, es, Execute(Call(0), 0));
        var started := es + [Execute(Call(0), 0)];
        AllowedAppend(cfg, started, Settle(Call(0), false, 0));
        es := started + [Settle(Call(0), false, 0)];
      }
    }
  }

  lemma ReachesStuck(cfg: Config) returns (es: seq<Event>)
    requires cfg.halfOpenMaxCalls <= 0
    ensures Allowed(cfg, es) && Full(cfg, Exec(cfg, es)) && Exec(cfg, es).inFlight == map[]
  {
    es := FailRepeatedly(cfg, Max(1, cfg.failureThreshold));
    ExecKeepsInv(cfg, es);
    AllowedAppend(cfg, es, Execute(Call(0), cfg.resetTimeout));
    es := es + [Execute(Call(0), cfg.resetTimeout)];
  }

  // ---------- What the counters mean ----------

  /** The failures settled since the last success, over the whole run. */
  function TrailingFailures(es: seq<Event>): nat {
    if es == [] then 0
    else
      match es[|es| - 1]
      case Execute(_, _) => TrailingFailures(es[..|es| - 1])
      case Settle(_, ok, _) => if ok then 0 else TrailingFailures(es[..|es| - 1]) + 1
  }

  function LastFailure(es: seq<Event>): Option<int> {
    if es == [] then None
    else
      match es[|es| - 1]
      case Settle(_, false, now) => Some(now)
      case _ => LastFailure(es[..|es| - 1])
  }

  lemma {:induction false} CountersMeanHistory(cfg: Config, es: seq<Event>)
    requires Allowed(cfg, es)
    ensures Exec(cfg, es).b.failureCount == TrailingFailures(es)
    ensures Exec(cfg, es).b.lastFailureTime == LastFailure(es)
  {
    if es != [] {
      CountersMeanHistory(cfg, es[..|es| - 1]);
    }
  }

  /**
   Over all runs, a closed breaker's failureCount is below the
   threshold, exactly when the threshold is at least 1.
   */
  lemma ClosedIsBelowIff(cfg: Config)
    ensures (forall es :: Allowed(cfg, es) && Exec(cfg, es).b.state == CLOSED ==>
      Exec(cfg, es).b.failureCount < cfg.failureThreshold)
       <==> cfg.failureThreshold >= 1
  {
    if cfg.failureThreshold >= 1 {
      forall es | Allowed(cfg, es) && Exec(cfg, es).b.state == CLOSED
        ensures Exec(cfg, es).b.failureCount < cfg.failureThreshold
      {
        ExecKeepsInv(cfg, es);
      }
    } else {
      assert Allowed(cfg, []) && Exec(cfg, []) == START;
    }
  }

  /** A closed breaker opens exactly at the failure that completes a streak of the threshold's length. */
  lemma OpensOnStreak(cfg: Config, es: seq<Event>, c: Call, now: int)
    requires cfg.failureThreshold >= 1 && Allowed(cfg, es)
    requires Exec(cfg, es).b.state == CLOSED && c in Exec(cfg, es).inFlight
    ensures TrailingFailures(es) < cfg.failureThreshold
    ensures Step(cfg, Exec(cfg, es), Settle(c, false, now)).b.state == OPEN
      <==> TrailingFailures(es) + 1 == cfg.failureThreshold
    ensures Step(cfg, Exec(cfg, es), Settle(c, true, now)).b.state == CLOSED
  {
    ExecKeepsInv(cfg, es);
    CountersMeanHistory(cfg, es);
  }

  /** While open, a call runs only once resetTimeout has passed since the latest failure of the run. */
  lemma OpenWaitsForTimeout(cfg: Config, es: seq<Event>, c: Call, now: int)
    requires Allowed(cfg, es) && Exec(cfg, es).b.state == OPEN && c !in Exec(cfg, es).inFlight
    ensures LastFailure(es).Some?
    ensures c in Step(cfg, Exec(cfg, es), Execute(c, now)).inFlight
      <==> now - LastFailure(es).value >= cfg.resetTimeout && cfg.halfOpenMaxCalls >= 1
  {
    ExecKeepsInv(cfg, es);
    CountersMeanHistory(cfg, es);
  }

  // ---------- What closes a half-open breaker ----------

  /** Whether a call settles as a probe of the half-open period it was admitted in. */
  predicate IsOwn(r: Run, c: Call) { c in r.inFlight && r.inFlight[c] == Some(r.epoch) }

  datatype Successes = Successes(own: nat, strangers: nat)

  /**
   The successes of the latest half-open period, while it lasted: of its own probes, and of calls that were
   admitted before it began.
   */
  ghost function PeriodSuccesses(cfg: Config, es: seq<Event>): Successes
    requires Allowed(cfg, es)
  {
    if es == [] then Successes(0, 0)
    else
      var init := es[..|es| - 1];
      NextSuccesses(cfg, Exec(cfg, init), PeriodSuccesses(cfg, init), es[|es| - 1])
  }

  function NextSuccesses(cfg: Config, r: Run, n: Successes, e: Event): Successes
    requires Enabled(r, e)
  {
    match e
    case Execute(_, _) => if Step(cfg, r, e).epoch > r.epoch then Successes(0, 0) else n
    case Settle(c, ok, _) =>
      if r.b.state != HALF_OPEN || !ok then n
      else if IsOwn(r, c) then n.(own := n.own + 1)
      else n.(strangers := n.strangers + 1)
  }

  lemma {:induction false} SuccessesAreCounted(cfg: Config, es: seq<Event>)
    requires Allowed(cfg, es) && Exec(cfg, es).b.state == HALF_OPEN
    ensures var n := PeriodSuccesses(cfg, es); Exec(cfg, es).b.successCount == n.own + n.strangers
  {
    if es != [] {
      var init := es[..|es| - 1];
      if Exec(cfg, init).b.state == HALF_OPEN {
        SuccessesAreCounted(cfg, init);
      }
    }
  }

  /** The last event of the run closes the breaker. */
  ghost predicate Closes(cfg: Config, es: seq<Event>)
    requires Allowed(cfg, es)
  {
    es != [] && Exec(cfg, es[..|es| - 1]).b.state == HALF_OPEN && Exec(cfg, es).b.state == CLOSED
  }

  /**
   When the breaker closes, halfOpenMaxCalls successes have been counted; all of them are of probes of the present
   period exactly when no call that was admitted before it has succeeded in it.
   */
  lemma ClosedByProbesIff(cfg: Config, es: seq<Event>)
    requires cfg.halfOpenMaxCalls >= 1 && Allowed(cfg, es) && Closes(cfg, es)
    ensures var n := PeriodSuccesses(cfg, es);
      n.own + n.strangers == cfg.halfOpenMaxCalls && (n.own >= cfg.halfOpenMaxCalls <==> n.strangers == 0)
  {
    SuccessesAreCounted(cfg, es[..|es| - 1]);
    ExecKeepsInv(cfg, es[..|es| - 1]);
  }

  lemma SuccessesAppend(cfg: Config, es: seq<Event>, e: Event)
    requires Allowed(cfg, es) && Enabled(Exec(cfg, es), e)
    ensures Allowed(cfg, es + [e]) && Exec(cfg, es + [e]) == Step(cfg, Exec(cfg, es), e)
    ensures PeriodSuccesses(cfg, es + [e]) == NextSuccesses(cfg, Exec(cfg, es), PeriodSuccesses(cfg, es), e)
  {
    AllowedAppend(cfg, es, e);
    assert (es + [e])[..|es|] == es;
  }

  /** A call that is still in flight when others have failed until the breaker opens. */
  lemma {:induction false} FailBeside(cfg: Config, n: nat) returns (es: seq<Event>)
    ensures Allowed(cfg, es)
    ensures var r := Exec(cfg, es);
      && r.inFlight == map[Call(0) := None] && r.epoch == 0
      && (r.b.state == OPEN ==> r.b.lastFailureTime == Some(0))
      && (r.b.state == OPEN || (r.b.state == CLOSED && r.b.failureCount == n && (n == 0 || n < cfg.failureThreshold)))
  {
    if n == 0 {
      assert Allowed(cfg, []) && Exec(cfg, []) == START;
      AllowedAppend(cfg, [], Execute(Call(0), 0));
      es := [] + [Execute(Call(0), 0)];
    } else {
      es := FailBeside(cfg, n - 1);
      if Exec(cfg, es).b.state == CLOSED {
        AllowedAppend(cfg, es, Execute(Call(1), 0));
        var started := es + [Execute(Call(1), 0)];
        AllowedAppend(cfg, started, Settle(Call(1), false, 0));
        es := started + [Settle(Call(1), false, 0)];
      }
    }
  }

  /** The breaker is half-open, k probes have succeeded, another is in flight, and so is a call from before. */
  ghost predicate Probing(cfg: Config, es: seq<Event>, k: nat)
    requires Allowed(cfg, es)
  {
    var r := Exec(cfg, es);
    && r.b.state == HALF_OPEN && r.b.successCount == k && r.b.halfOpenCalls == k + 1
    && r.inFlight == map[Call(0) := None, Call(1) := Some(r.epoch)] && PeriodSuccesses(cfg, es) == Successes(k, 0)
  }

  lemma {:induction false} ProbeRepeatedly(cfg: Config, k: nat) returns (es: seq<Event>)
    requires k < cfg.halfOpenMaxCalls
    ensures Allowed(cfg, es) && Probing(cfg, es, k)
  {
    var again := Execute(Call(1), cfg.resetTimeout);
    if k == 0 {
      var open := FailBeside(cfg, Max(1, cfg.failureThreshold));
      SuccessesAppend(cfg, open, again);
      es := open + [again];
    } else {
      var before := ProbeRepeatedly(cfg, k - 1);
      SuccessesAppend(cfg, before, Settle(Call(1), true, 0));
      var settled := before + [Settle(Call(1), true, 0)];
      SuccessesAppend(cfg, settled, again);
      es := settled + [again];
    }
  }

  /** All probes but one succeed, and the call from before: the breaker closes one probe too early. */
  lemma StrangerCloses(cfg: Config) returns (es: seq<Event>)
    requires cfg.halfOpenMaxCalls >= 1
    ensures Allowed(cfg, es) && Closes(cfg, es) && PeriodSuccesses(cfg, es).own == cfg.halfOpenMaxCalls - 1
  {
    var before := ProbeRepeatedly(cfg, cfg.halfOpenMaxCalls - 1);
    SuccessesAppend(cfg, before, Settle(Call(0), true, 0));
    es := before + [Settle(Call(0), true, 0)];
    assert es[..|es| - 1] == before;
  }

  /** Over all runs, the breaker closes on enough probes of its own period only if it needs none. */
  lemma ClosesOnProbesIff(cfg: Config)
    ensures (forall es :: Allowed(cfg, es) && Closes(cfg, es) ==>
      PeriodSuccesses(cfg, es).own >= cfg.halfOpenMaxCalls)
        <==> cfg.halfOpenMaxCalls <= 0
  {
    if cfg.halfOpenMaxCalls >= 1 {
      var es := StrangerCloses(cfg);
    }
  }

  // ---------- How long a breaker stays open ----------

  /** Only a call that waits out resetTimeout takes an open breaker out of that state, and then to half-open. */
  lemma OpenUntilTimeout(cfg: Config, es: seq<Event>, e: Event)
    requires Allowed(cfg, es) && Enabled(Exec(cfg, es), e) && Exec(cfg, es).b.state == OPEN
    ensures LastFailure(es).Some?
    ensures var r := Step(cfg, Exec(cfg, es), e);
      if e.Execute? && e.now - LastFailure(es).value >= cfg.resetTimeout then r.b.state == HALF_OPEN
      else r.b.state == OPEN
  {
    ExecKeepsInv(cfg, es);
    CountersMeanHistory(cfg, es);
  }

  /** The breaker has been open in this run, and since then no call has waited out resetTimeout. */
  ghost predicate OpenSince(cfg: Config, es: seq<Event>, n: nat)
    requires Allowed(cfg, es) && n <= |es|
    decreases |es|
  {
    if n == |es| then Exec(cfg, es).b.state == OPEN
    else
      var init, e := es[..|es| - 1], es[|es| - 1];
      && OpenSince(cfg, init, n)
      && (e.Execute? ==> LastFailure(init).Some? && e.now - LastFailure(init).value < cfg.resetTimeout)
  }

  /** So an open breaker stays open, and runs nothing, until a call comes resetTimeout after the last failure. */
  lemma {:induction false} StaysOpen(cfg: Config, es: seq<Event>, n: nat)
    requires Allowed(cfg, es) && n <= |es| && OpenSince(cfg, es, n)
    ensures Exec(cfg, es).b.state == OPEN
    ensures n < |es| && es[|es| - 1].Execute? ==> es[|es| - 1].c !in Exec(cfg, es).inFlight
    decreases |es|
  {
    if n < |es| {
      StaysOpen(cfg, es[..|es| - 1], n);
      OpenUntilTimeout(cfg, es[..|es| - 1], es[|es| - 1]);
    }
  }

  /** The state diagram, in terms of the history: each transition happens exactly then, and there are no others. */
  lemma TransitionsAre(cfg: Config, es: seq<Event>, e: Event)
    requires Allowed(cfg, es) && Enabled(Exec(cfg, es), e)
    ensures var r, r' := Exec(cfg, es), Step(cfg, Exec(cfg, es), e);
      r'.b.state ==
        match r.b.state
        case CLOSED => if e.Settle? && !e.ok && TrailingFailures(es) + 1 >= cfg.failureThreshold then OPEN else CLOSED
        case OPEN =>
          if e.Execute? && LastFailure(es).Some? && e.now - LastFailure(es).value >= cfg.resetTimeout then HALF_OPEN
          else OPEN
        case HALF_OPEN =>
          if !e.Settle? then HALF_OPEN
          else if !e.ok then OPEN
          else if
            PeriodSuccesses(cfg, es).own + PeriodSuccesses(cfg, es).strangers + 1 >= cfg.halfOpenMaxCalls
          then CLOSED
          else HALF_OPEN
  {
    ExecKeepsInv(cfg, es);
    CountersMeanHistory(cfg, es);
    if Exec(cfg, es).b.state == HALF_OPEN {
      SuccessesAreCounted(cfg, es);
    }
  }

  /** The calls admitted in the latest half-open period, while it lasted. */
  ghost function PeriodProbes(cfg: Config, es: seq<Event>): nat
    requires Allowed(cfg, es)
  {
    if es == [] then 0
    else
      var r, r', n := Exec(cfg, es[..|es| - 1]), Exec(cfg, es), PeriodProbes(cfg, es[..|es| - 1]);
      var e := es[|es| - 1];
      var before := if r'.epoch > r.epoch then 0 else n;
      if e.Execute? && r'.b.state == HALF_OPEN && e.c in r'.inFlight then before + 1 else before
  }

  lemma {:induction false} ProbesAreCounted(cfg: Config, es: seq<Event>)
    requires Allowed(cfg, es) && Exec(cfg, es).b.state == HALF_OPEN
    ensures PeriodProbes(cfg, es) == Exec(cfg, es).b.halfOpenCalls <= Max(0, cfg.halfOpenMaxCalls)
  {
    ExecKeepsInv(cfg, es);
    if es != [] && Exec(cfg, es[..|es| - 1]).b.state == HALF_OPEN {
      ProbesAreCounted(cfg, es[..|es| - 1]);
    }
  }

  /**
   Exactly which calls run: all of a closed breaker; of an open one those that wait out resetTimeout, if there is a
   budget for probes; of a half-open one as many as the budget.
   */
  lemma RunsIff(cfg: Config, es: seq<Event>, c: Call, now: int)
    requires Allowed(cfg, es) && c !in Exec(cfg, es).inFlight
    ensures c in Step(cfg, Exec(cfg, es), Execute(c, now)).inFlight <==>
      match Exec(cfg, es).b.state
      case CLOSED => true
      case OPEN => LastFailure(es).Some? && now - LastFailure(es).value >= cfg.resetTimeout && cfg.halfOpenMaxCalls >= 1
      case HALF_OPEN => PeriodProbes(cfg, es) < cfg.halfOpenMaxCalls
  {
    ExecKeepsInv(cfg, es);
    CountersMeanHistory(cfg, es);
    if Exec(cfg, es).b.state == HALF_OPEN {
      ProbesAreCounted(cfg, es);
    }
  }
}
