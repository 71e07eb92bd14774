/**
 src/auth/auth-service.js: how long sessions and tokens last. Cleanup is never noticed, a session is there until
 it is ended or a cleanup finds it expired, and ending it revokes whatever token could still be exchanged.
 */
module AuthSessions {
  import opened JsCollections
  import opened AuthTokens

  // ---------- Cleanup ----------

  /** Cleanup takes away exactly what has run out. */
  lemma CleanupLeaves(a: Auth, now: int)
    ensures var a' := CleanupStep(a, now);
      && (forall s :: s in a'.sessions <==> s in a.sessions && a.sessions[s].expiresAt >= now)
      && (forall j :: j in a'.revoked <==> j in a.revoked && a.revoked[j] >= now)
      && (forall s :: s in a'.sessions ==> a'.sessions[s] == a.sessions[s])
      && (forall j :: j in a'.revoked ==> a'.revoked[j] == a.revoked[j])
  {
  }

  /** A refresh after a cleanup ends like one without it. */
  lemma CleanupIsInvisible(lifetime: int, a: Auth, token: Token, now: int, t: Reads)
    requires now <= t.revoked <= t.session
    ensures RefreshStep(lifetime, CleanupStep(a, now), token, t).1 == RefreshStep(lifetime, a, token, t).1
  {
  }

  lemma {:induction false} CleanupTwice(a: Auth, now: int, later: int)
    requires now <= later
    ensures CleanupStep(CleanupStep(a, now), later) == CleanupStep(a, later)
  {
    var once, twice := CleanupStep(a, later), CleanupStep(CleanupStep(a, now), later);
    assert once.sessions == twice.sessions;
    assert once.revoked == twice.revoked;
  }

  lemma RefreshChanges(lifetime: int, a: Auth, token: Token, t: Reads)
    ensures var (a', v) := RefreshStep(lifetime, a, token, t);
      && a'.sessions == a.sessions
      && (v == Rotating ==> a'.revoked == a.revoked[token.jti := t.record + lifetime * 1000])
  {
    var (b, revoked) := IsRevoked(a, token.jti, t.revoked);
    if !revoked && b != a && token.sid in a.sessions && a.sessions[token.sid].expiresAt >= t.session {
      assert (a.revoked - {token.jti})[token.jti := t.record + lifetime * 1000]
        == a.revoked[token.jti := t.record + lifetime * 1000];
    }
  }

  lemma SameRevoked(revoked: map<Jti, int>, kept: map<Jti, int>, jti: Jti, now: int, until: int, later: int)
    requires now <= later
    requires forall j :: j in kept <==> j in revoked && revoked[j] >= now
    requires forall j :: j in kept ==> kept[j] == revoked[j]
    ensures CleanupStep(Auth(map[], kept), later) == CleanupStep(Auth(map[], revoked), later)
    ensures
      CleanupStep(Auth(map[], kept[jti := until]), later) == CleanupStep(Auth(map[], revoked[jti := until]), later)
  {
  }

  /** An earlier cleanup leaves no trace after a later one, whatever exchange goes on between them. */
  lemma CleanupLeavesNoTrace(lifetime: int, a: Auth, token: Token, now: int, t: Reads, later: int)
    requires now <= t.revoked <= t.session && now <= later && RefreshStep(lifetime, a, token, t).1 == Rotating
    ensures CleanupStep(RefreshStep(lifetime, CleanupStep(a, now), token, t).0, later)
      == CleanupStep(RefreshStep(lifetime, a, token, t).0, later)
  {
    var kept := CleanupStep(a, now);
    CleanupIsInvisible(lifetime, a, token, now, t);
    RefreshChanges(lifetime, a, token, t);
    RefreshChanges(lifetime, kept, token, t);
    CleanupTwice(a, now, later);
    SameRevoked(a.revoked, kept.revoked, token.jti, now, t.record + lifetime * 1000, later);
    Separately(RefreshStep(lifetime, a, token, t).0, later);
    Separately(RefreshStep(lifetime, kept, token, t).0, later);
    Separately(a, later);
    Separately(kept, later);
  }

  lemma Separately(a: Auth, now: int)
    ensures CleanupStep(a, now)
      == Auth(CleanupStep(Auth(a.sessions, map[]), now).sessions, CleanupStep(Auth(map[], a.revoked), now).revoked)
    ensures CleanupStep(a, now).sessions == CleanupStep(Auth(a.sessions, map[]), now).sessions
  {
  }

  // ---------- How long a token is good ----------

  /** A token signed for `lifetime` seconds passes verification all that time, up to the second it was signed in. */
  lemma TokenLasts(lifetime: int, jti: Jti, sid: Sid, issuedAt: int, now: int)
    ensures var token := Token(jti, sid, Expiry(lifetime, issuedAt));
      && (now >= issuedAt + lifetime * 1000 ==> !Unexpired(token, now))
      && (now <= issuedAt + lifetime * 1000 - 1000 ==> Unexpired(token, now))
  {
  }

  // ---------- How long a session is there ----------

  /** What takes a session away: a logout or an invalidation of it, or a cleanup after it has expired. */
  ghost predicate Removes(x: System, e: Event, s: Sid)
    requires Enabled(x, e) && s in x.auth.sessions
  {
    || (EndsSession(e) && Ended(x, e) == s)
    || (e.Cleanup? && e.now > x.auth.sessions[s].expiresAt)
  }

  lemma StaysWhenGivingOut(lifetime: int, x: System, e: Event, s: Sid)
    requires GivesOut(e) && IssuedIds(x) && RegisteringIds(x) && Enabled(x, e) && s in x.auth.sessions
    ensures var x' := Step(lifetime, x, e);
      s in x'.auth.sessions && x'.auth.sessions[s].expiresAt == x.auth.sessions[s].expiresAt
  {
  }

  lemma StaysWhenEnding(lifetime: int, x: System, e: Event, s: Sid)
    requires EndsSession(e) && Enabled(x, e) && s in x.auth.sessions
    ensures s in Step(lifetime, x, e).auth.sessions <==> Ended(x, e) != s
  {
  }

  lemma StaysOtherwise(lifetime: int, x: System, e: Event, s: Sid)
    requires !GivesOut(e) && !EndsSession(e) && Enabled(x, e) && s in x.auth.sessions
    ensures s in Step(lifetime, x, e).auth.sessions <==> !(e.Cleanup? && e.now > x.auth.sessions[s].expiresAt)
  {
  }

  lemma StaysIff(lifetime: int, x: System, e: Event, s: Sid)
    requires IdsOk(x) && Enabled(x, e) && s in x.auth.sessions
    ensures var x' := Step(lifetime, x, e);
      && (s in x'.auth.sessions <==> !Removes(x, e, s))
      && (s in x'.auth.sessions ==> x'.auth.sessions[s].expiresAt == x.auth.sessions[s].expiresAt)
  {
    if GivesOut(e) {
      StaysWhenGivingOut(lifetime, x, e, s);
    } else {
      StepUsesUp(lifetime, x, e);
      if EndsSession(e) {
        StaysWhenEnding(lifetime, x, e, s);
      } else {
        StaysOtherwise(lifetime, x, e, s);
      }
    }
  }

  ghost predicate NeverRemoved(lifetime: int, x: System, es: seq<Event>, s: Sid)
    requires Allowed(lifetime, x, es)
    decreases |es|
  {
    es == [] || (s in x.auth.sessions && !Removes(x, es[0], s)
      && NeverRemoved(lifetime, Step(lifetime, x, es[0]), es[1..], s))
  }

  lemma {:induction false} SessionThereIff(lifetime: int, x: System, es: seq<Event>, s: Sid)
    requires Inv(lifetime, x) && Allowed(lifetime, x, es) && s in x.auth.sessions
    ensures var y := Exec(lifetime, x, es);
      && (s in y.auth.sessions <==> NeverRemoved(lifetime, x, es, s))
      && (s in y.auth.sessions ==> y.auth.sessions[s].expiresAt == x.auth.sessions[s].expiresAt)
    decreases |es|
  {
    if es != [] {
      var x' := Step(lifetime, x, es[0]);
      StaysIff(lifetime, x, es[0], s);
      StepKeepsInv(lifetime, x, es[0]);
      if s in x'.auth.sessions {
        SessionThereIff(lifetime, x', es[1..], s);
      } else {
        GoneIsGone(lifetime, x, x', es, s);
      }
    }
  }

  lemma GoneIsGone(lifetime: int, x: System, x': System, es: seq<Event>, s: Sid)
    requires es != [] && Allowed(lifetime, x, es) && x' == Step(lifetime, x, es[0])
    requires Inv(lifetime, x) && Inv(lifetime, x')
    requires s in x.auth.sessions && s !in x'.auth.sessions
    ensures s !in Exec(lifetime, x', es[1..]).auth.sessions
  {
    RemovedIsGone(lifetime, x, es[0], s);
    NoRefreshOnceGone(lifetime, x', es[1..], s);
  }

  lemma RemovedIsGone(lifetime: int, x: System, e: Event, s: Sid)
    requires IdsOk(x) && Enabled(x, e) && s in x.auth.sessions && s !in Step(lifetime, x, e).auth.sessions
    ensures Gone(Step(lifetime, x, e), s)
  {
  }

  /**
   A registered session, in any run: it is there exactly until it is logged out or invalidated, or a cleanup finds
   that `lifetime` seconds have passed since it was created.
   */
  lemma RegisteredSessionLasts(lifetime: int, es: seq<Event>, x: System, s: Sid, now: int, more: seq<Event>)
    requires Allowed(lifetime, START, es) && x == Exec(lifetime, START, es) && Enabled(x, FinishRegister(s, now))
    requires Allowed(lifetime, Step(lifetime, x, FinishRegister(s, now)), more)
    ensures var y := Step(lifetime, x, FinishRegister(s, now));
      var z := Exec(lifetime, y, more);
      && s in y.auth.sessions && (s in z.auth.sessions <==> NeverRemoved(lifetime, y, more, s))
      && (s in z.auth.sessions ==> z.auth.sessions[s].expiresAt == now + lifetime * 1000)
  {
    ReachedInv(lifetime, es);
    StepKeepsInv(lifetime, x, FinishRegister(s, now));
    SessionThereIff(lifetime, Step(lifetime, x, FinishRegister(s, now)), more, s);
  }

  /** Till then each token of it that was not exchanged can be. */
  lemma RefreshWorksTillThen(lifetime: int, es: seq<Event>, x: System, s: Sid, now: int, more: seq<Event>, job: Job,
      t: Reads)
    requires Allowed(lifetime, START, es) && x == Exec(lifetime, START, es) && Enabled(x, FinishRegister(s, now))
    requires var y := Step(lifetime, x, FinishRegister(s, now));
      && Allowed(lifetime, y, more) && NeverRemoved(lifetime, y, more, s)
      && var z := Exec(lifetime, y, more);
        Enabled(z, StartRefresh(job, t)) && z.jobs[job].token.sid == s && z.jobs[job].token.jti !in z.exchanged
    requires t.session <= now + lifetime * 1000
    ensures var z := Exec(lifetime, Step(lifetime, x, FinishRegister(s, now)), more);
      RefreshStep(lifetime, z.auth, z.jobs[job].token, t).1 == Rotating
  {
    var y := Step(lifetime, x, FinishRegister(s, now));
    ReachedInv(lifetime, es);
    StepKeepsInv(lifetime, x, FinishRegister(s, now));
    ExecKeepsInv(lifetime, y, more);
    RegisteredSessionLasts(lifetime, es, x, s, now, more);
    RefreshIff(lifetime, Exec(lifetime, y, more), job, t);
  }

  // ---------- What ending a session revokes ----------

  /** A live session knows the one token that can still be exchanged for it. */
  ghost predicate KnowsToken(x: System) {
    forall j :: j in x.issued && j !in x.exchanged && x.issued[j].sid in x.auth.sessions ==>
      x.auth.sessions[x.issued[j].sid].refreshTokenJti == Some(j)
  }

  lemma GivingOutKeepsKnows(lifetime: int, x: System, e: Event)
    requires GivesOut(e) && Enabled(x, e) && IdsOk(x) && LoginSidsOk(x) && SingleLive(x) && KnowsToken(x)
    ensures KnowsToken(Step(lifetime, x, e))
  {
  }

  lemma UsingUpKeepsKnows(lifetime: int, x: System, e: Event)
    requires !GivesOut(e) && Enabled(x, e) && KnowsToken(x)
    ensures KnowsToken(Step(lifetime, x, e))
  {
    StepUsesUp(lifetime, x, e);
    var x' := Step(lifetime, x, e);
    assert forall j :: j in x.exchanged ==> j in x'.exchanged;
  }

  lemma {:induction false} ExecKeepsKnows(lifetime: int, x: System, es: seq<Event>)
    requires Allowed(lifetime, x, es) && Inv(lifetime, x) && KnowsToken(x)
    ensures KnowsToken(Exec(lifetime, x, es))
    decreases |es|
  {
    if es != [] {
      if GivesOut(es[0]) {
        GivingOutKeepsKnows(lifetime, x, es[0]);
      } else {
        UsingUpKeepsKnows(lifetime, x, es[0]);
      }
      StepKeepsInv(lifetime, x, es[0]);
      ExecKeepsKnows(lifetime, Step(lifetime, x, es[0]), es[1..]);
    }
  }

  lemma EndingRevokes(lifetime: int, x: System, e: Event, j: Jti)
    requires EndsSession(e) && Enabled(x, e) && IdsOk(x) && KnowsToken(x)
    requires j in x.issued && x.issued[j].sid == Ended(x, e) && Ended(x, e) in x.auth.sessions && j !in x.exchanged
    ensures var a := Step(lifetime, x, e).auth; j in a.revoked && a.revoked[j] >= FirstRead(e) + lifetime * 1000
  {
  }

  /** When a live session is logged out or invalidated, the token that could still be exchanged is revoked. */
  lemma EndedTokensAreRevoked(lifetime: int, es: seq<Event>, e: Event, j: Jti)
    requires Allowed(lifetime, START, es) && Enabled(Exec(lifetime, START, es), e) && EndsSession(e)
    requires var x := Exec(lifetime, START, es);
      j in x.issued && x.issued[j].sid == Ended(x, e) && Ended(x, e) in x.auth.sessions && j !in x.exchanged
    ensures var a := Step(lifetime, Exec(lifetime, START, es), e).auth;
      j in a.revoked && a.revoked[j] >= FirstRead(e) + lifetime * 1000
  {
    assert Inv(lifetime, START) && KnowsToken(START);
    ReachedInv(lifetime, es);
    ExecKeepsKnows(lifetime, START, es);
    EndingRevokes(lifetime, Exec(lifetime, START, es), e, j);
  }
}
