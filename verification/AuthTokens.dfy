/**
 src/auth/auth-service.js: sessions, refresh-token rotation and revocation. Times are in
 milliseconds, a token's `exp` in seconds; signing and key lookup are foreign calls that only
 add awaits.
 */
module AuthTokens {
  import opened JsCollections

  datatype Jti = Jti(id: nat)

  datatype Sid = Sid(id: nat)

  /** A refresh token's claims that matter here. */
  datatype Token = Token(jti: Jti, sid: Sid, exp: int)

  datatype Session = Session(refreshTokenJti: Option<Jti>, expiresAt: int)

  datatype Auth = Auth(sessions: map<Sid, Session>, revoked: map<Jti, int>)

  datatype Verdict = TokenRevoked | SessionExpired | Rotating

  /** `exp` of a token signed at the given millisecond: NumericDate in whole seconds. */
  function Expiry(lifetime: int, issuedAt: int): int { issuedAt / 1000 + lifetime }

  /** #isTokenRevoked: forgets an entry that has run out, and takes a stored 0 for absent. */
  function IsRevoked(a: Auth, jti: Jti, now: int): (Auth, bool) {
    if jti !in a.revoked || a.revoked[jti] == 0 then (a, false)
    else if a.revoked[jti] < now then (a.(revoked := a.revoked - {jti}), false)
    else (a, true)
  }

  /** The three clock reads between two awaits of refreshTokens. */
  datatype Reads = Reads(revoked: int, session: int, record: int)

  /** refreshTokens from the end of verification to the start of key generation. */
  function RefreshStep(lifetime: int, a: Auth, token: Token, t: Reads): (Auth, Verdict) {
    var (a, revoked) := IsRevoked(a, token.jti, t.revoked);
    if revoked then (a, TokenRevoked)
    else if token.sid !in a.sessions || a.sessions[token.sid].expiresAt < t.session then (a, SessionExpired)
    else (a.(revoked := a.revoked[token.jti := t.record + lifetime * 1000]), Rotating)
  }

  /** The session object remembers the new token; a session deleted meanwhile is out of the map. */
  function RotatedStep(a: Auth, sid: Sid, jti: Jti): Auth {
    if sid in a.sessions then a.(sessions := a.sessions[sid := a.sessions[sid].(refreshTokenJti := Some(jti))]) else a
  }

  function InvalidateStep(lifetime: int, a: Auth, sid: Sid, now: int): (Auth, bool) {
    if sid !in a.sessions then (a, false)
    else
      var s := a.sessions[sid];
      (Auth(a.sessions - {sid},
            if s.refreshTokenJti.Some? then a.revoked[s.refreshTokenJti.value := now + lifetime * 1000]
              else a.revoked), true)
  }

  /** logout after verification; every refresh token carries a session id. */
  function LogoutStep(lifetime: int, a: Auth, token: Token, now: int, record: int): Auth {
    var (a, _) := InvalidateStep(lifetime, a, token.sid, now);
    a.(revoked := a.revoked[token.jti := record + lifetime * 1000])
  }

  function CreateStep(lifetime: int, a: Auth, sid: Sid, jti: Jti, now: int): Auth {
    a.(sessions := a.sessions[sid := Session(Some(jti), now + lifetime * 1000)])
  }

  function CleanupStep(a: Auth, now: int): Auth {
    Auth(map s | s in a.sessions && !(a.sessions[s].expiresAt < now) :: a.sessions[s],
         map j | j in a.revoked && !(a.revoked[j] < now) :: a.revoked[j])
  }

  class AuthService {
    const refreshLifetime: int
    var sessions: map<Sid, Session>
    var revokedTokens: map<Jti, int>

    function State(): Auth
      reads this
    {
      Auth(sessions, revokedTokens)
    }

    constructor (refreshLifetime: int)
      ensures this.refreshLifetime == refreshLifetime && State() == Auth(map[], map[])
    {
      this.refreshLifetime, sessions, revokedTokens := refreshLifetime, map[], map[];
    }

    method IsTokenRevoked(jti: Jti, now: int) returns (r: bool)
      modifies this
      ensures (State(), r) == IsRevoked(old(State()), jti, now)
    {
      if jti !in revokedTokens || revokedTokens[jti] == 0 {
        return false;
      }
      if revokedTokens[jti] < now {
        revokedTokens := revokedTokens - {jti};
        return false;
      }
      return true;
    }

    method StartRefresh(token: Token, t: Reads) returns (r: Verdict)
      modifies this
      ensures (State(), r) == RefreshStep(refreshLifetime, old(State()), token, t)
    {
      var revoked := IsTokenRevoked(token.jti, t.revoked);
      if revoked {
        return TokenRevoked;
      }
      if token.sid !in sessions || sessions[token.sid].expiresAt < t.session {
        return SessionExpired;
      }
      revokedTokens := revokedTokens[token.jti := t.record + refreshLifetime * 1000];
      return Rotating;
    }

    method FinishRefresh(sid: Sid, jti: Jti)
      modifies this
      ensures State() == RotatedStep(old(State()), sid, jti)
    {
      if sid in sessions {
        sessions := sessions[sid := sessions[sid].(refreshTokenJti := Some(jti))];
      }
    }

    method InvalidateSession(sid: Sid, now: int) returns (r: bool)
      modifies this
      ensures (State(), r) == InvalidateStep(refreshLifetime, old(State()), sid, now)
    {
      if sid in sessions {
        var session := sessions[sid];
        if session.refreshTokenJti.Some? {
          revokedTokens := revokedTokens[session.refreshTokenJti.value := now + refreshLifetime * 1000];
        }
        sessions := sessions - {sid};
        return true;
      }
      return false;
    }

    method Logout(token: Token, now: int, record: int)
      modifies this
      ensures State() == LogoutStep(refreshLifetime, old(State()), token, now, record)
    {
      var invalidated := InvalidateSession(token.sid, now);
      revokedTokens := revokedTokens[token.jti := record + refreshLifetime * 1000];
    }

    method CreateSession(sid: Sid, jti: Jti, now: int)
      modifies this
      ensures State() == CreateStep(refreshLifetime, old(State()), sid, jti, now)
    {
      sessions := sessions[sid := Session(Some(jti), now + refreshLifetime * 1000)];
    }

    /** The body of the cleanup interval. */
    method Cleanup(now: int)
      modifies this
      ensures State() == CleanupStep(old(State()), now)
    {
      sessions := UnexpiredSessions(sessions, now);
      revokedTokens := UnexpiredRevocations(revokedTokens, now);
    }
  }

  method UnexpiredSessions(sessions: map<Sid, Session>, now: int) returns (kept: map<Sid, Session>)
    ensures kept == CleanupStep(Auth(sessions, map[]), now).sessions
  {
    kept := sessions;
    var todo := sessions.Keys;
    while todo != {}
      invariant todo <= sessions.Keys
      invariant forall s :: s in kept <==> s in sessions && (s in todo || !(sessions[s].expiresAt < now))
      invariant forall s :: s in kept ==> kept[s] == sessions[s]
      decreases |todo|
    {
      var s :| s in todo;
      todo := todo - {s};
      if sessions[s].expiresAt < now {
        kept := kept - {s};
      }
    }
  }

  method UnexpiredRevocations(revoked: map<Jti, int>, now: int) returns (kept: map<Jti, int>)
    ensures kept == CleanupStep(Auth(map[], revoked), now).revoked
  {
    kept := revoked;
    var todo := revoked.Keys;
    while todo != {}
      invariant todo <= revoked.Keys
      invariant forall j :: j in kept <==> j in revoked && (j in todo || !(revoked[j] < now))
      invariant forall j :: j in kept ==> kept[j] == revoked[j]
      decreases |todo|
    {
      var j :| j in todo;
      todo := todo - {j};
      if revoked[j] < now {
        kept := kept - {j};
      }
    }
  }

  // ---------- Interleaved requests ----------

  datatype Job = Job(id: nat)

  /** Where a request waits: after verifying its token, for the signing key, or for its new token to be signed. */
  datatype Wait = Refresh(token: Token) | Logout(token: Token) | NewPair(sid: Sid) | Signing(token: Token)

  /** A refresh that has exchanged its token and has yet to hand out a new one. */
  predicate Renews(w: Wait) { w.NewPair? || w.Signing? }

  function RenewedSid(w: Wait): Sid
    requires Renews(w)
  {
    if w.NewPair? then w.sid else w.token.sid
  }

  /**
   `issued` are the refresh tokens handed to clients, `registering` and `loggingIn` those signed but
   not handed out yet; `exchanged` logs the tokens that started a rotation. `usedSids` and
   `usedJtis` are the random ids drawn so far.
   */
  datatype System = System(
    auth: Auth, clock: int, jobs: map<Job, Wait>,
    issued: map<Jti, Token>, registering: map<Sid, Token>, loggingIn: map<Jti, Token>,
    usedSids: set<Sid>, usedJtis: set<Jti>, loginSids: set<Sid>,
    exchanged: seq<Jti>)

  datatype Event =
    | SignForRegister(sid: Sid, jti: Jti, now: int)
    | FinishRegister(sid: Sid, now: int)
    | SignForLogin(sid: Sid, jti: Jti, now: int)
    | FinishLogin(jti: Jti, sessionId: Sid, now: int)
    | VerifyForRefresh(job: Job, token: Token, now: int)
    | VerifyForLogout(job: Job, token: Token, now: int)
    | StartRefresh(job: Job, t: Reads)
    | SignForRefresh(job: Job, jti: Jti, now: int)
    | FinishRefresh(job: Job, now: int)
    | FinishLogout(job: Job, invalidate: int, now: int)
    | Invalidate(sid: Sid, now: int)
    | Cleanup(now: int)

  const START: System := System(Auth(map[], map[]), 1, map[], map[], map[], map[], {}, {}, {}, [])

  function FirstRead(e: Event): int {
    match e
    case StartRefresh(_, t) => t.revoked
    case FinishLogout(_, invalidate, _) => invalidate
    case _ => e.now
  }

  function LastRead(e: Event): int {
    match e
    case StartRefresh(_, t) => t.record
    case _ => e.now
  }

  /** Section 4.1.4 of RFC 7519: the current time must be before the expiration time. */
  predicate Unexpired(token: Token, now: int) { now / 1000 < token.exp }

  ghost predicate Enabled(x: System, e: Event) {
    && x.clock <= FirstRead(e) <= LastRead(e)
    && match e
       case SignForRegister(sid, jti, _) => sid !in x.usedSids && jti !in x.usedJtis
       case SignForLogin(sid, jti, _) => sid !in x.usedSids && jti !in x.usedJtis
       case FinishRegister(sid, _) => sid in x.registering
       case FinishLogin(jti, sessionId, _) => jti in x.loggingIn && sessionId !in x.usedSids
       case VerifyForRefresh(job, token, now) => job !in x.jobs && token in x.issued.Values && Unexpired(token, now)
       case VerifyForLogout(job, token, now) => job !in x.jobs && token in x.issued.Values && Unexpired(token, now)
       case StartRefresh(job, t) => job in x.jobs && x.jobs[job].Refresh? && t.revoked <= t.session <= t.record
       case SignForRefresh(job, jti, _) => job in x.jobs && x.jobs[job].NewPair? && jti !in x.usedJtis
       case FinishRefresh(job, _) => job in x.jobs && x.jobs[job].Signing?
       case FinishLogout(job, _, _) => job in x.jobs && x.jobs[job].Logout?
       case Invalidate(_, _) => true
       case Cleanup(_) => true
  }

  ghost function Step(lifetime: int, x: System, e: Event): System
    requires Enabled(x, e)
  {
    var x' := x.(clock := LastRead(e));
    match e
    case SignForRegister(sid, jti, now) =>
      x'.(registering := x.registering[sid := Token(jti, sid, Expiry(lifetime, now))],
          usedSids := x.usedSids + {sid}, usedJtis := x.usedJtis + {jti})
    case FinishRegister(sid, now) =>
      var token := x.registering[sid];
      x'.(auth := CreateStep(lifetime, x.auth, sid, token.jti, now),
          registering := x.registering - {sid}, issued := x.issued[token.jti := token])
    case SignForLogin(sid, jti, now) =>
      x'.(loggingIn := x.loggingIn[jti := Token(jti, sid, Expiry(lifetime, now))],
          usedSids := x.usedSids + {sid}, usedJtis := x.usedJtis + {jti}, loginSids := x.loginSids + {sid})
    case FinishLogin(jti, sessionId, now) =>
      x'.(auth := CreateStep(lifetime, x.auth, sessionId, jti, now),
          loggingIn := x.loggingIn - {jti}, issued := x.issued[jti := x.loggingIn[jti]],
          usedSids := x.usedSids + {sessionId})
    case VerifyForRefresh(job, token, _) => x'.(jobs := x.jobs[job := Refresh(token)])
    case VerifyForLogout(job, token, _) => x'.(jobs := x.jobs[job := Logout(token)])
    case StartRefresh(job, t) =>
      var token := x.jobs[job].token;
      var (auth, v) := RefreshStep(lifetime, x.auth, token, t);
      if v == Rotating then
        x'.(auth := auth, jobs := x.jobs[job := NewPair(token.sid)], exchanged := x.exchanged + [token.jti])
      else x'.(auth := auth, jobs := x.jobs - {job})
    case SignForRefresh(job, jti, now) =>
      x'.(jobs := x.jobs[job := Signing(Token(jti, x.jobs[job].sid, Expiry(lifetime, now)))],
          usedJtis := x.usedJtis + {jti})
    case FinishRefresh(job, _) =>
      var token := x.jobs[job].token;
      x'.(auth := RotatedStep(x.auth, token.sid, token.jti), jobs := x.jobs - {job},
          issued := x.issued[token.jti := token])
    case FinishLogout(job, invalidate, now) =>
      x'.(auth := LogoutStep(lifetime, x.auth, x.jobs[job].token, invalidate, now), jobs := x.jobs - {job})
    case Invalidate(sid, now) => x'.(auth := InvalidateStep(lifetime, x.auth, sid, now).0)
    case Cleanup(now) => x'.(auth := CleanupStep(x.auth, now))
  }

  // ---------- Invariants ----------

  /** Ids are drawn once, and every record carries the ids it is filed under. */
  ghost predicate IdsOk(x: System) {
    IssuedIds(x) && RegisteringIds(x) && LoginIds(x) && JobIds(x) && SigningIds(x)
  }

  ghost predicate IssuedIds(x: System) {
    && (forall j :: j in x.issued ==>
          x.issued[j].jti == j && j in x.usedJtis && x.issued[j].sid in x.usedSids && x.issued[j].sid !in x.registering)
    && (forall s :: s in x.auth.sessions ==> s in x.usedSids)
  }

  ghost predicate RegisteringIds(x: System) {
    && (forall s :: s in x.registering ==>
          var t := x.registering[s];
          t.sid == s && s in x.usedSids && s !in x.auth.sessions && s !in x.loginSids && t.jti in x.usedJtis
            && t.jti !in x.issued)
    && (forall s, r :: s in x.registering && r in x.registering && s != r ==>
      x.registering[s].jti != x.registering[r].jti)
    && (forall s, j :: s in x.registering && j in x.loggingIn ==> x.registering[s].jti != j)
  }

  ghost predicate LoginIds(x: System) {
    && (forall j :: j in x.loggingIn ==>
          x.loggingIn[j].jti == j && j in x.usedJtis && x.loggingIn[j].sid in x.loginSids && j !in x.issued)
    && x.loginSids <= x.usedSids
  }

  ghost predicate JobIds(x: System) {
    forall b :: b in x.jobs ==>
      match x.jobs[b]
      case NewPair(sid) => sid in x.usedSids && sid !in x.registering
      case Signing(t) => t.sid in x.usedSids && t.sid !in x.registering && t.jti in x.usedJtis && t.jti !in x.issued
      case w => w.token.jti in x.issued && x.issued[w.token.jti] == w.token
  }

  /** A token that is being signed for a refresh shares its id with no other. */
  ghost predicate SigningIds(x: System) {
    forall b :: b in x.jobs && x.jobs[b].Signing? ==>
      var j := x.jobs[b].token.jti;
      && j !in x.loggingIn && (forall s :: s in x.registering ==> x.registering[s].jti != j)
      && forall c :: c in x.jobs && c != b && x.jobs[c].Signing? ==> x.jobs[c].token.jti != j
  }

  /** The session a login creates is not the one its token names, so the named one never exists. */
  ghost predicate LoginSidsOk(x: System) {
    forall s :: s in x.loginSids ==> s !in x.auth.sessions && s !in x.registering && s in x.usedSids
  }

  /** A session id that is spent: no session now, and none to come. */
  ghost predicate Gone(x: System, s: Sid) {
    s in x.usedSids && s !in x.auth.sessions && s !in x.registering
  }

  /** Requests that hand out new credentials; the others only use them up. */
  predicate GivesOut(e: Event) {
    e.SignForRegister? || e.FinishRegister? || e.SignForLogin? || e.FinishLogin? || e.SignForRefresh?
      || e.FinishRefresh?
  }

  predicate EndsSession(e: Event) { e.FinishLogout? || e.Invalidate? }

  /** What the requests that hand out nothing leave as it is; a session can only go. */
  ghost predicate UsedUp(x: System, x': System) {
    && x'.issued == x.issued && x'.registering == x.registering && x'.loggingIn == x.loggingIn
    && x'.usedSids == x.usedSids && x'.usedJtis == x.usedJtis && x'.loginSids == x.loginSids
    && forall s :: s in x'.auth.sessions ==> s in x.auth.sessions && x'.auth.sessions[s] == x.auth.sessions[s]
  }

  lemma StepUsesUp(lifetime: int, x: System, e: Event)
    requires !GivesOut(e) && Enabled(x, e)
    ensures UsedUp(x, Step(lifetime, x, e))
  {
  }

  lemma UsedUpKeepsIds(x: System, x': System)
    requires UsedUp(x, x') && IssuedIds(x) && RegisteringIds(x) && LoginIds(x)
    ensures IssuedIds(x') && RegisteringIds(x') && LoginIds(x')
  {
  }

  lemma StepKeepsIssuedIds(lifetime: int, x: System, e: Event)
    requires GivesOut(e) && Enabled(x, e) && IdsOk(x) && LoginSidsOk(x)
    ensures IssuedIds(Step(lifetime, x, e))
  {
  }

  lemma StepKeepsRegisteringIds(lifetime: int, x: System, e: Event)
    requires GivesOut(e) && Enabled(x, e) && IdsOk(x)
    ensures RegisteringIds(Step(lifetime, x, e))
  {
  }

  lemma StepKeepsLoginIds(lifetime: int, x: System, e: Event)
    requires GivesOut(e) && Enabled(x, e) && IdsOk(x)
    ensures LoginIds(Step(lifetime, x, e))
  {
  }

  lemma StepKeepsJobIdsGivingOut(lifetime: int, x: System, e: Event)
    requires GivesOut(e) && Enabled(x, e) && IdsOk(x)
    ensures JobIds(Step(lifetime, x, e))
  {
  }

  lemma StepKeepsJobIdsUsingUp(lifetime: int, x: System, e: Event)
    requires !GivesOut(e) && Enabled(x, e) && IdsOk(x)
    ensures JobIds(Step(lifetime, x, e))
  {
  }

  lemma StepKeepsSigningIdsGivingOut(lifetime: int, x: System, e: Event)
    requires GivesOut(e) && Enabled(x, e) && IdsOk(x)
    ensures SigningIds(Step(lifetime, x, e))
  {
  }

  lemma UsedUpKeepsSigningIds(x: System, x': System)
    requires UsedUp(x, x') && SigningIds(x)
    requires forall b :: b in x'.jobs && x'.jobs[b].Signing? ==> b in x.jobs && x'.jobs[b] == x.jobs[b]
    ensures SigningIds(x')
  {
  }

  lemma StepKeepsSigningIds(lifetime: int, x: System, e: Event)
    requires Enabled(x, e) && IdsOk(x)
    ensures SigningIds(Step(lifetime, x, e))
  {
    if GivesOut(e) {
      StepKeepsSigningIdsGivingOut(lifetime, x, e);
    } else {
      StepUsesUp(lifetime, x, e);
      UsedUpKeepsSigningIds(x, Step(lifetime, x, e));
    }
  }

  lemma StepKeepsIds(lifetime: int, x: System, e: Event)
    requires Enabled(x, e) && IdsOk(x) && LoginSidsOk(x)
    ensures IdsOk(Step(lifetime, x, e))
  {
    StepKeepsSigningIds(lifetime, x, e);
    if GivesOut(e) {
      StepKeepsIssuedIds(lifetime, x, e);
      StepKeepsRegisteringIds(lifetime, x, e);
      StepKeepsLoginIds(lifetime, x, e);
      StepKeepsJobIdsGivingOut(lifetime, x, e);
    } else {
      StepUsesUp(lifetime, x, e);
      UsedUpKeepsIds(x, Step(lifetime, x, e));
      StepKeepsJobIdsUsingUp(lifetime, x, e);
    }
  }

  lemma UsedUpKeepsLoginSids(x: System, x': System)
    requires UsedUp(x, x') && LoginSidsOk(x)
    ensures LoginSidsOk(x')
  {
  }

  lemma StepKeepsLoginSidsGivingOut(lifetime: int, x: System, e: Event)
    requires GivesOut(e) && Enabled(x, e) && IdsOk(x) && LoginSidsOk(x)
    ensures LoginSidsOk(Step(lifetime, x, e))
  {
  }

  lemma StepKeepsLoginSids(lifetime: int, x: System, e: Event)
    requires Enabled(x, e) && IdsOk(x) && LoginSidsOk(x)
    ensures LoginSidsOk(Step(lifetime, x, e))
  {
    if GivesOut(e) {
      StepKeepsLoginSidsGivingOut(lifetime, x, e);
    } else {
      StepUsesUp(lifetime, x, e);
      UsedUpKeepsLoginSids(x, Step(lifetime, x, e));
    }
  }

  /** No session outlives the lifetime of a revocation made now. */
  ghost predicate SessionsShort(lifetime: int, x: System) {
    forall s :: s in x.auth.sessions ==> x.auth.sessions[s].expiresAt <= x.clock + lifetime * 1000
  }

  lemma StepKeepsSessionsShort(lifetime: int, x: System, e: Event)
    requires Enabled(x, e) && SessionsShort(lifetime, x)
    ensures SessionsShort(lifetime, Step(lifetime, x, e))
  {
  }

  /** The revocation of an exchanged token lasts as long as its session. */
  ghost predicate Blocked(x: System, j: Jti) {
    && j in x.issued
    && (x.issued[j].sid in x.auth.sessions ==>
          var until := x.auth.sessions[x.issued[j].sid].expiresAt;
          until < x.clock || (j in x.auth.revoked && x.auth.revoked[j] >= until))
  }

  ghost predicate ExchangedBlocked(x: System) {
    forall i :: 0 <= i < |x.exchanged| ==> Blocked(x, x.exchanged[i])
  }

  lemma StepKeepsBlockedGivingOut(lifetime: int, x: System, e: Event, j: Jti)
    requires GivesOut(e)
    requires Enabled(x, e) && IdsOk(x) && SessionsShort(lifetime, x) && Blocked(x, j)
    ensures Blocked(Step(lifetime, x, e), j)
  {
  }

  /** A revocation stays as it is, comes to last a whole lifetime, or is dropped once it has run out. */
  ghost predicate RevokesLong(lifetime: int, x: System, x': System) {
    && x.clock <= x'.clock
    && (forall j :: j in x'.auth.revoked && (j !in x.auth.revoked || x'.auth.revoked[j] != x.auth.revoked[j]) ==>
          x'.auth.revoked[j] >= x.clock + lifetime * 1000)
    && (forall j :: j in x.auth.revoked && j !in x'.auth.revoked ==> x.auth.revoked[j] < x'.clock)
  }

  lemma StepRevokes(lifetime: int, x: System, e: Event)
    requires !GivesOut(e) && Enabled(x, e)
    ensures RevokesLong(lifetime, x, Step(lifetime, x, e))
  {
  }

  lemma UsedUpKeepsBlocked(lifetime: int, x: System, x': System, j: Jti)
    requires UsedUp(x, x') && RevokesLong(lifetime, x, x') && SessionsShort(lifetime, x) && Blocked(x, j)
    ensures Blocked(x', j)
  {
  }

  lemma StepKeepsBlocked(lifetime: int, x: System, e: Event, j: Jti)
    requires Enabled(x, e) && IdsOk(x) && SessionsShort(lifetime, x) && Blocked(x, j)
    ensures Blocked(Step(lifetime, x, e), j)
  {
    if GivesOut(e) {
      StepKeepsBlockedGivingOut(lifetime, x, e, j);
    } else {
      StepUsesUp(lifetime, x, e);
      StepRevokes(lifetime, x, e);
      UsedUpKeepsBlocked(lifetime, x, Step(lifetime, x, e), j);
    }
  }

  lemma StepKeepsExchangedBlocked(lifetime: int, x: System, e: Event)
    requires Enabled(x, e) && IdsOk(x) && SessionsShort(lifetime, x) && ExchangedBlocked(x)
    ensures ExchangedBlocked(Step(lifetime, x, e))
  {
    var x' := Step(lifetime, x, e);
    forall i | 0 <= i < |x'.exchanged| ensures Blocked(x', x'.exchanged[i]) {
      if i < |x.exchanged| {
        StepKeepsBlocked(lifetime, x, e, x.exchanged[i]);
      }
    }
  }

  /** For a live session, only an exchange revokes one of its tokens. */
  ghost predicate RevokedByExchange(x: System) {
    && (forall j :: j in x.auth.revoked ==> j in x.issued)
    && (forall j :: j in x.auth.revoked && x.issued[j].sid in x.auth.sessions ==> j in x.exchanged)
  }

  /** A session remembers one of its own tokens, or one that no session answers to. */
  ghost predicate SessionTokens(x: System) {
    forall s :: s in x.auth.sessions && x.auth.sessions[s].refreshTokenJti.Some? ==>
      var j := x.auth.sessions[s].refreshTokenJti.value;
      j in x.issued && (x.issued[j].sid == s || x.issued[j].sid in x.loginSids)
  }

  lemma StepKeepsSessionTokensSigning(lifetime: int, x: System, e: Event)
    requires (e.SignForRegister? || e.SignForLogin? || e.SignForRefresh?) && Enabled(x, e) && SessionTokens(x)
    ensures SessionTokens(Step(lifetime, x, e))
  {
  }

  lemma StepKeepsSessionTokensGivingOut(lifetime: int, x: System, e: Event)
    requires (e.FinishRegister? || e.FinishLogin? || e.FinishRefresh?) && Enabled(x, e) && IdsOk(x) && SessionTokens(x)
    ensures SessionTokens(Step(lifetime, x, e))
  {
  }

  lemma UsedUpKeepsSessionTokens(x: System, x': System)
    requires UsedUp(x, x') && SessionTokens(x)
    ensures SessionTokens(x')
  {
  }

  lemma StepKeepsSessionTokens(lifetime: int, x: System, e: Event)
    requires Enabled(x, e) && IdsOk(x) && SessionTokens(x)
    ensures SessionTokens(Step(lifetime, x, e))
  {
    if e.SignForRegister? || e.SignForLogin? || e.SignForRefresh? {
      StepKeepsSessionTokensSigning(lifetime, x, e);
    } else if GivesOut(e) {
      StepKeepsSessionTokensGivingOut(lifetime, x, e);
    } else {
      StepUsesUp(lifetime, x, e);
      UsedUpKeepsSessionTokens(x, Step(lifetime, x, e));
    }
  }

  lemma StepKeepsRevokedByExchangeGivingOut(lifetime: int, x: System, e: Event)
    requires GivesOut(e)
    requires Enabled(x, e) && IdsOk(x) && LoginSidsOk(x) && SessionTokens(x) && RevokedByExchange(x)
    ensures RevokedByExchange(Step(lifetime, x, e))
  {
    var x' := Step(lifetime, x, e);
    forall j | j in x'.exchanged || j in x.exchanged ensures j in x.exchanged ==> j in x'.exchanged {
    }
  }

  lemma StepKeepsRevokedByExchangeEnding(lifetime: int, x: System, e: Event)
    requires EndsSession(e)
    requires Enabled(x, e) && IdsOk(x) && LoginSidsOk(x) && SessionTokens(x) && RevokedByExchange(x)
    ensures RevokedByExchange(Step(lifetime, x, e))
  {
  }

  lemma StepKeepsRevokedByExchangeUsingUp(lifetime: int, x: System, e: Event)
    requires !GivesOut(e) && !EndsSession(e)
    requires Enabled(x, e) && IdsOk(x) && RevokedByExchange(x)
    ensures RevokedByExchange(Step(lifetime, x, e))
  {
    var x' := Step(lifetime, x, e);
    assert forall j :: j in x.exchanged ==> j in x'.exchanged;
  }

  lemma StepKeepsRevokedByExchange(lifetime: int, x: System, e: Event)
    requires Enabled(x, e) && IdsOk(x) && LoginSidsOk(x) && SessionTokens(x) && RevokedByExchange(x)
    ensures RevokedByExchange(Step(lifetime, x, e))
  {
    if GivesOut(e) {
      StepKeepsRevokedByExchangeGivingOut(lifetime, x, e);
    } else if EndsSession(e) {
      StepKeepsRevokedByExchangeEnding(lifetime, x, e);
    } else {
      StepKeepsRevokedByExchangeUsingUp(lifetime, x, e);
    }
  }

  /**
   Exactly when a refresh goes through: its session is there and unexpired, and the token was
   never exchanged before, whatever else is in flight.
   */
  lemma RefreshIff(lifetime: int, x: System, job: Job, t: Reads)
    requires x.clock >= 1 && Enabled(x, StartRefresh(job, t))
    requires IdsOk(x) && ExchangedBlocked(x) && RevokedByExchange(x)
    ensures var token := x.jobs[job].token;
      RefreshStep(lifetime, x.auth, token, t).1 == Rotating <==>
        token.sid in x.auth.sessions && x.auth.sessions[token.sid].expiresAt >= t.session && token.jti !in x.exchanged
  {
    var token := x.jobs[job].token;
    if token.jti in x.exchanged {
      var i :| 0 <= i < |x.exchanged| && x.exchanged[i] == token.jti;
      assert Blocked(x, token.jti);
    }
  }

  /** One live refresh token per session: all but at most one issued token have been exchanged. */
  ghost predicate SingleLive(x: System) {
    && (forall i, j ::
      i in x.issued && j in x.issued && i != j && x.issued[i].sid == x.issued[j].sid
      && x.issued[i].sid !in x.loginSids ==>
          i in x.exchanged || j in x.exchanged)
    && (forall b :: b in x.jobs && Renews(x.jobs[b]) ==>
          var sid := RenewedSid(x.jobs[b]);
          sid !in x.loginSids && forall j :: j in x.issued && x.issued[j].sid == sid ==> j in x.exchanged)
    && (forall b, c :: b in x.jobs && c in x.jobs && b != c && Renews(x.jobs[b]) && Renews(x.jobs[c]) ==>
          RenewedSid(x.jobs[b]) != RenewedSid(x.jobs[c]))
  }

  lemma StepKeepsSingleLiveRotated(lifetime: int, x: System, e: Event)
    requires e.FinishRefresh? && Enabled(x, e) && IdsOk(x) && SingleLive(x)
    ensures SingleLive(Step(lifetime, x, e))
  {
  }

  lemma StepKeepsSingleLiveSigned(lifetime: int, x: System, e: Event)
    requires e.SignForRefresh? && Enabled(x, e) && SingleLive(x)
    ensures SingleLive(Step(lifetime, x, e))
  {
  }

  lemma StepKeepsSingleLiveNewIds(lifetime: int, x: System, e: Event)
    requires (e.SignForRegister? || e.SignForLogin?) && Enabled(x, e) && IdsOk(x) && SingleLive(x)
    ensures SingleLive(Step(lifetime, x, e))
  {
  }

  lemma StepKeepsSingleLiveGivingOut(lifetime: int, x: System, e: Event)
    requires e.FinishRegister? || e.FinishLogin?
    requires Enabled(x, e) && IdsOk(x) && LoginSidsOk(x) && SingleLive(x)
    ensures SingleLive(Step(lifetime, x, e))
  {
  }

  lemma StepKeepsSingleLiveExchanging(lifetime: int, x: System, e: Event)
    requires e.StartRefresh? && x.clock >= 1 && Enabled(x, e)
    requires IdsOk(x) && LoginSidsOk(x) && ExchangedBlocked(x) && RevokedByExchange(x) && SingleLive(x)
    ensures SingleLive(Step(lifetime, x, e))
  {
    RefreshIff(lifetime, x, e.job, e.t);
  }

  lemma StepKeepsSingleLiveUsingUp(lifetime: int, x: System, e: Event)
    requires !GivesOut(e) && !e.StartRefresh?
    requires Enabled(x, e) && SingleLive(x)
    ensures SingleLive(Step(lifetime, x, e))
  {
    StepUsesUp(lifetime, x, e);
  }

  lemma StepKeepsSingleLive(lifetime: int, x: System, e: Event)
    requires x.clock >= 1 && Enabled(x, e)
    requires IdsOk(x) && LoginSidsOk(x) && ExchangedBlocked(x) && RevokedByExchange(x) && SingleLive(x)
    ensures SingleLive(Step(lifetime, x, e))
  {
    if e.FinishRefresh? {
      StepKeepsSingleLiveRotated(lifetime, x, e);
    } else if e.SignForRefresh? {
      StepKeepsSingleLiveSigned(lifetime, x, e);
    } else if e.StartRefresh? {
      StepKeepsSingleLiveExchanging(lifetime, x, e);
    } else if e.SignForRegister? || e.SignForLogin? {
      StepKeepsSingleLiveNewIds(lifetime, x, e);
    } else if GivesOut(e) {
      StepKeepsSingleLiveGivingOut(lifetime, x, e);
    } else {
      StepKeepsSingleLiveUsingUp(lifetime, x, e);
    }
  }

  lemma StepKeepsNoDup(lifetime: int, x: System, e: Event)
    requires x.clock >= 1 && Enabled(x, e)
    requires IdsOk(x) && ExchangedBlocked(x) && RevokedByExchange(x) && NoDup(x.exchanged)
    ensures NoDup(Step(lifetime, x, e).exchanged)
  {
    if e.StartRefresh? {
      RefreshIff(lifetime, x, e.job, e.t);
    }
  }

  /** A revocation entry is kept at least until its token has expired. */
  ghost predicate OutlivesToken(x: System) {
    forall j :: j in x.auth.revoked && j in x.issued ==> x.auth.revoked[j] >= x.issued[j].exp * 1000
  }

  ghost predicate TokensShort(lifetime: int, x: System) {
    && (forall j :: j in x.issued ==> x.issued[j].exp * 1000 <= x.clock + lifetime * 1000)
    && (forall s :: s in x.registering ==> x.registering[s].exp * 1000 <= x.clock + lifetime * 1000)
    && (forall j :: j in x.loggingIn ==> x.loggingIn[j].exp * 1000 <= x.clock + lifetime * 1000)
    && (forall b :: b in x.jobs && x.jobs[b].Signing? ==>
          x.jobs[b].token.exp * 1000 <= x.clock + lifetime * 1000)
  }

  lemma ExpiryFloors(lifetime: int, issuedAt: int)
    ensures Expiry(lifetime, issuedAt) * 1000 <= issuedAt + lifetime * 1000
  {
  }

  lemma StepKeepsTokensShort(lifetime: int, x: System, e: Event)
    requires Enabled(x, e) && TokensShort(lifetime, x)
    ensures TokensShort(lifetime, Step(lifetime, x, e))
  {
    ExpiryFloors(lifetime, FirstRead(e));
  }

  lemma StepKeepsOutlivesTokenGivingOut(lifetime: int, x: System, e: Event)
    requires GivesOut(e)
    requires Enabled(x, e) && IdsOk(x) && RevokedByExchange(x) && TokensShort(lifetime, x) && OutlivesToken(x)
    ensures OutlivesToken(Step(lifetime, x, e))
  {
  }

  lemma StepKeepsOutlivesTokenUsingUp(lifetime: int, x: System, e: Event)
    requires !GivesOut(e)
    requires Enabled(x, e) && TokensShort(lifetime, x) && OutlivesToken(x)
    ensures OutlivesToken(Step(lifetime, x, e))
  {
    StepUsesUp(lifetime, x, e);
    StepRevokes(lifetime, x, e);
  }

  lemma StepKeepsOutlivesToken(lifetime: int, x: System, e: Event)
    requires Enabled(x, e) && IdsOk(x) && RevokedByExchange(x) && TokensShort(lifetime, x) && OutlivesToken(x)
    ensures OutlivesToken(Step(lifetime, x, e))
  {
    if GivesOut(e) {
      StepKeepsOutlivesTokenGivingOut(lifetime, x, e);
    } else {
      StepKeepsOutlivesTokenUsingUp(lifetime, x, e);
    }
  }

  // ---------- Over whole runs ----------

  ghost predicate Inv(lifetime: int, x: System) {
    && x.clock >= 1 && IdsOk(x) && LoginSidsOk(x)
    && SessionsShort(lifetime, x) && ExchangedBlocked(x) && SessionTokens(x) && RevokedByExchange(x)
    && NoDup(x.exchanged) && SingleLive(x) && TokensShort(lifetime, x) && OutlivesToken(x)
  }

  lemma StepKeepsInv(lifetime: int, x: System, e: Event)
    requires Enabled(x, e) && Inv(lifetime, x)
    ensures Inv(lifetime, Step(lifetime, x, e))
  {
    StepKeepsIds(lifetime, x, e);
    StepKeepsLoginSids(lifetime, x, e);
    StepKeepsSessionsShort(lifetime, x, e);
    StepKeepsExchangedBlocked(lifetime, x, e);
    StepKeepsSessionTokens(lifetime, x, e);
    StepKeepsRevokedByExchange(lifetime, x, e);
    StepKeepsNoDup(lifetime, x, e);
    StepKeepsSingleLive(lifetime, x, e);
    StepKeepsTokensShort(lifetime, x, e);
    StepKeepsOutlivesToken(lifetime, x, e);
  }

  ghost predicate Allowed(lifetime: int, x: System, es: seq<Event>)
    decreases |es|
  {
    es == [] || (Enabled(x, es[0]) && Allowed(lifetime, Step(lifetime, x, es[0]), es[1..]))
  }

  ghost function Exec(lifetime: int, x: System, es: seq<Event>): System
    requires Allowed(lifetime, x, es)
    decreases |es|
  {
    if es == [] then x else Exec(lifetime, Step(lifetime, x, es[0]), es[1..])
  }

  lemma {:induction false} ExecKeepsInv(lifetime: int, x: System, es: seq<Event>)
    requires Allowed(lifetime, x, es) && Inv(lifetime, x)
    ensures Inv(lifetime, Exec(lifetime, x, es))
    decreases |es|
  {
    if es != [] {
      StepKeepsInv(lifetime, x, es[0]);
      ExecKeepsInv(lifetime, Step(lifetime, x, es[0]), es[1..]);
    }
  }

  lemma ReachedInv(lifetime: int, es: seq<Event>)
    requires Allowed(lifetime, START, es)
    ensures Inv(lifetime, Exec(lifetime, START, es))
  {
    assert Inv(lifetime, START);
    ExecKeepsInv(lifetime, START, es);
  }

  /** In every interleaving a refresh token is exchanged at most once. */
  lemma ExchangedAtMostOnce(lifetime: int, es: seq<Event>)
    requires Allowed(lifetime, START, es)
    ensures NoDup(Exec(lifetime, START, es).exchanged)
  {
    ReachedInv(lifetime, es);
  }

  /** Every rotation chain has one end: of a session's issued tokens at most one was not exchanged. */
  lemma OneLiveTokenPerSession(lifetime: int, es: seq<Event>, i: Jti, j: Jti)
    requires Allowed(lifetime, START, es)
    requires var x := Exec(lifetime, START, es);
      i in x.issued && j in x.issued && i != j && x.issued[i].sid == x.issued[j].sid
        && x.issued[i].sid in x.auth.sessions
    ensures var x := Exec(lifetime, START, es); i in x.exchanged || j in x.exchanged
  {
    ReachedInv(lifetime, es);
  }

  /** Exactly when a refresh goes through, in any reachable state. */
  lemma RefreshSucceedsIff(lifetime: int, es: seq<Event>, job: Job, t: Reads)
    requires Allowed(lifetime, START, es) && Enabled(Exec(lifetime, START, es), StartRefresh(job, t))
    ensures var x := Exec(lifetime, START, es);
      var token := x.jobs[job].token;
      RefreshStep(lifetime, x.auth, token, t).1 == Rotating <==>
        token.sid in x.auth.sessions && x.auth.sessions[token.sid].expiresAt >= t.session && token.jti !in x.exchanged
  {
    ReachedInv(lifetime, es);
    RefreshIff(lifetime, Exec(lifetime, START, es), job, t);
  }

  /** What a later state keeps of an earlier one: issued tokens, and no exchange for the spent id. */
  ghost predicate Spent(x: System, x': System, s: Sid) {
    && Gone(x', s)
    && x.exchanged <= x'.exchanged
    && (forall j :: j in x.issued ==> j in x'.issued && x'.issued[j] == x.issued[j])
    && (forall i :: |x.exchanged| <= i < |x'.exchanged| ==>
      x'.exchanged[i] in x'.issued && x'.issued[x'.exchanged[i]].sid != s)
  }

  lemma StepKeepsGoneGivingOut(lifetime: int, x: System, e: Event, s: Sid)
    requires GivesOut(e) && Enabled(x, e) && IdsOk(x) && Gone(x, s)
    ensures Spent(x, Step(lifetime, x, e), s)
  {
  }

  lemma StepKeepsGoneUsingUp(lifetime: int, x: System, e: Event, s: Sid)
    requires !GivesOut(e) && Enabled(x, e) && JobIds(x) && Gone(x, s)
    ensures Spent(x, Step(lifetime, x, e), s)
  {
    StepUsesUp(lifetime, x, e);
  }

  lemma StepKeepsGone(lifetime: int, x: System, e: Event, s: Sid)
    requires Enabled(x, e) && IdsOk(x) && Gone(x, s)
    ensures Spent(x, Step(lifetime, x, e), s)
  {
    if GivesOut(e) {
      StepKeepsGoneGivingOut(lifetime, x, e, s);
    } else {
      StepKeepsGoneUsingUp(lifetime, x, e, s);
    }
  }

  lemma SpentTransitive(x: System, y: System, z: System, s: Sid)
    requires Spent(x, y, s) && Spent(y, z, s)
    ensures Spent(x, z, s)
  {
    forall i | |x.exchanged| <= i < |z.exchanged|
      ensures z.exchanged[i] in z.issued && z.issued[z.exchanged[i]].sid != s
    {
      if i < |y.exchanged| {
        assert z.exchanged[i] == y.exchanged[i];
      }
    }
  }

  /** Once a session is gone, none of its tokens is ever exchanged again. */
  lemma {:induction false} NoRefreshOnceGone(lifetime: int, x: System, es: seq<Event>, s: Sid)
    requires Allowed(lifetime, x, es) && Inv(lifetime, x) && Gone(x, s)
    ensures Spent(x, Exec(lifetime, x, es), s)
    decreases |es|
  {
    if es != [] {
      var y := Step(lifetime, x, es[0]);
      StepKeepsInv(lifetime, x, es[0]);
      NoRefreshAfter(lifetime, x, y, es, s);
    }
  }

  lemma NoRefreshAfter(lifetime: int, x: System, y: System, es: seq<Event>, s: Sid)
    requires es != [] && Allowed(lifetime, x, es) && IdsOk(x) && Gone(x, s)
    requires y == Step(lifetime, x, es[0]) && Inv(lifetime, y)
    ensures Spent(x, Exec(lifetime, y, es[1..]), s)
    decreases |es|, 0
  {
    StepKeepsGone(lifetime, x, es[0], s);
    NoRefreshOnceGone(lifetime, y, es[1..], s);
    SpentTransitive(x, y, Exec(lifetime, y, es[1..]), s);
  }

  /** After logout or invalidation a session is gone, whether or not it was there. */
  lemma LogoutAndInvalidationAreFinal(lifetime: int, es: seq<Event>, e: Event)
    requires Allowed(lifetime, START, es) && Enabled(Exec(lifetime, START, es), e)
    ensures var x := Exec(lifetime, START, es);
      && (e.FinishLogout? ==> Gone(Step(lifetime, x, e), x.jobs[e.job].token.sid))
      && (e.Invalidate? && e.sid in x.auth.sessions ==> Gone(Step(lifetime, x, e), e.sid))
  {
    ReachedInv(lifetime, es);
    SessionEnds(lifetime, Exec(lifetime, START, es), e);
  }

  lemma SessionEnds(lifetime: int, x: System, e: Event)
    requires IdsOk(x) && Enabled(x, e)
    ensures e.FinishLogout? ==> Gone(Step(lifetime, x, e), x.jobs[e.job].token.sid)
    ensures e.Invalidate? && e.sid in x.auth.sessions ==> Gone(Step(lifetime, x, e), e.sid)
  {
  }

  /** The session that a logout or an invalidation ends. */
  function Ended(x: System, e: Event): Sid
    requires EndsSession(e) && (e.FinishLogout? ==> e.job in x.jobs && x.jobs[e.job].Logout?)
  {
    if e.FinishLogout? then x.jobs[e.job].token.sid else e.sid
  }

  lemma EndingExchangesNothing(lifetime: int, x: System, e: Event)
    requires EndsSession(e) && Enabled(x, e)
    ensures Step(lifetime, x, e).exchanged == x.exchanged
  {
  }

  lemma EndedIsSpent(lifetime: int, x: System, e: Event, more: seq<Event>)
    requires Inv(lifetime, x) && EndsSession(e) && Enabled(x, e) && (e.Invalidate? ==> e.sid in x.auth.sessions)
    requires Allowed(lifetime, Step(lifetime, x, e), more)
    ensures Spent(Step(lifetime, x, e), Exec(lifetime, Step(lifetime, x, e), more), Ended(x, e))
  {
    StepKeepsInv(lifetime, x, e);
    SessionEnds(lifetime, x, e);
    NoRefreshOnceGone(lifetime, Step(lifetime, x, e), more, Ended(x, e));
  }

  /** In any run, once a session has been logged out or invalidated, no token of it is exchanged again. */
  lemma NoRefreshAfterEnding(lifetime: int, es: seq<Event>, x: System, e: Event, more: seq<Event>)
    requires Allowed(lifetime, START, es) && x == Exec(lifetime, START, es)
    requires EndsSession(e) && Enabled(x, e) && (e.Invalidate? ==> e.sid in x.auth.sessions)
    requires Allowed(lifetime, Step(lifetime, x, e), more)
    ensures var z := Exec(lifetime, Step(lifetime, x, e), more);
      && x.exchanged <= z.exchanged
      && forall i :: |x.exchanged| <= i < |z.exchanged| ==>
        z.exchanged[i] in z.issued && z.issued[z.exchanged[i]].sid != Ended(x, e)
  {
    ReachedInv(lifetime, es);
    EndingExchangesNothing(lifetime, x, e);
    EndedIsSpent(lifetime, x, e, more);
  }

  /** A token from login names a session that never exists: it is gone from the start. */
  lemma LoginTokensNeverRefresh(lifetime: int, es: seq<Event>, j: Jti)
    requires Allowed(lifetime, START, es)
    requires var x := Exec(lifetime, START, es); j in x.issued && x.issued[j].sid in x.loginSids
    ensures var x := Exec(lifetime, START, es); Gone(x, x.issued[j].sid) && j !in x.exchanged
  {
    ReachedInv(lifetime, es);
    LoginNotExchanged(lifetime, START, es);
    LoginTokenGone(Exec(lifetime, START, es), j);
  }

  lemma LoginTokenGone(x: System, j: Jti)
    requires LoginSidsOk(x) && LoginUnexchanged(x) && j in x.issued && x.issued[j].sid in x.loginSids
    ensures Gone(x, x.issued[j].sid) && j !in x.exchanged
  {
  }

  ghost predicate LoginUnexchanged(x: System) {
    forall i :: 0 <= i < |x.exchanged| ==> x.exchanged[i] in x.issued && x.issued[x.exchanged[i]].sid !in x.loginSids
  }

  lemma StepKeepsLoginUnexchangedGivingOut(lifetime: int, x: System, e: Event)
    requires GivesOut(e) && Enabled(x, e) && IdsOk(x) && LoginUnexchanged(x)
    ensures LoginUnexchanged(Step(lifetime, x, e))
  {
  }

  lemma StepKeepsLoginUnexchangedUsingUp(lifetime: int, x: System, e: Event)
    requires !GivesOut(e) && Enabled(x, e) && JobIds(x) && LoginSidsOk(x) && LoginUnexchanged(x)
    ensures LoginUnexchanged(Step(lifetime, x, e))
  {
    StepUsesUp(lifetime, x, e);
  }

  lemma StepKeepsLoginUnexchanged(lifetime: int, x: System, e: Event)
    requires Enabled(x, e) && IdsOk(x) && LoginSidsOk(x) && LoginUnexchanged(x)
    ensures LoginUnexchanged(Step(lifetime, x, e))
  {
    if GivesOut(e) {
      StepKeepsLoginUnexchangedGivingOut(lifetime, x, e);
    } else {
      StepKeepsLoginUnexchangedUsingUp(lifetime, x, e);
    }
  }

  lemma {:induction false} LoginNotExchanged(lifetime: int, x: System, es: seq<Event>)
    requires Allowed(lifetime, x, es) && Inv(lifetime, x) && LoginUnexchanged(x)
    ensures LoginUnexchanged(Exec(lifetime, x, es))
    decreases |es|
  {
    if es != [] {
      StepKeepsInv(lifetime, x, es[0]);
      StepKeepsLoginUnexchanged(lifetime, x, es[0]);
      LoginNotExchanged(lifetime, Step(lifetime, x, es[0]), es[1..]);
    }
  }

  /** When cleanup drops a revocation, the token it blocked can no longer be verified. */
  lemma CleanupDropsOnlyExpired(lifetime: int, es: seq<Event>, now: int, j: Jti, later: int)
    requires Allowed(lifetime, START, es)
    requires var x := Exec(lifetime, START, es);
      j in x.auth.revoked && j !in CleanupStep(x.auth, now).revoked && now <= later
    ensures j in Exec(lifetime, START, es).issued && !Unexpired(Exec(lifetime, START, es).issued[j], later)
  {
    ReachedInv(lifetime, es);
  }
}
