/** Background pruning: a run and the same run without its prune jobs answer every request alike, as long as the clock
    never goes back. The clearing of expired verification tokens can be observed, and exactly by what is said here. */
module Pruning {
  import opened Base
  import opened Security
  import opened Store
  import opened Credentials
  import opened EmailVerification
  import opened Rotation
  import Authorization
  import Redemption

  /** The jobs that are taken out of a run: those that prune, and the clearing of verification tokens if asked. */
  predicate Drops(clears: bool, a: Action) { a.PruneSessions? || a.PruneCodes? || (clears && a.ClearVerification?) }

  /** A run without those jobs. */
  ghost function Keep(clears: bool, events: seq<Event>): seq<Event> {
    if events == [] then []
    else
      var before, last := Keep(clears, events[..|events| - 1]), events[|events| - 1];
      if Drops(clears, last.action) then before else before + [last]
  }

  /** A history without those jobs. */
  ghost function Visible(clears: bool, log: seq<Entry>): seq<Entry> {
    if log == [] then []
    else
      var before, last := Visible(clears, log[..|log| - 1]), log[|log| - 1];
      if Drops(clears, last.event.action) then before else before + [last]
  }

  /** Taking the jobs out leaves every other answer as it is. */
  ghost predicate Unobservable(cfg: Settings, clears: bool, events: seq<Event>) {
    Visible(clears, Run(cfg, events).log) == Run(cfg, Keep(clears, events)).log
  }

  predicate IssuedAt(c: seq<Issue>, token: RefreshToken, i: nat) {
    i < |c| && c[i].pair.refresh == token.(spelling := CANONICAL)
  }

  /** The token is one that was handed out for its session, in any spelling. */
  ghost predicate WasIssued(log: seq<Entry>, token: RefreshToken) {
    exists i: nat :: IssuedAt(Chain(log, token.sid), token, i)
  }

  /** No client forges a signature. (A premise only where a logout's commit fails.) */
  ghost predicate Genuine(log: seq<Entry>, e: Event) {
    e.action.Logout? && e.action.presented.Signed? && CommitWork in e.faults ==>
      WasIssued(log, e.action.presented.token)
  }

  ghost predicate AllGenuine(cfg: Settings, events: seq<Event>) {
    forall n :: 0 <= n < |events| ==> Genuine(Run(cfg, events[..n]).log, events[n])
  }

  /** Runs under one clock that never goes back, with fresh randomness and genuine tokens. */
  ghost predicate Sound(cfg: Settings, events: seq<Event>) {
    IsRun(cfg, events) && MonotoneClock(events) && AllGenuine(cfg, events)
  }

  // ----- the simulation relation -----

  /** The account row of the pruned run: the same, or cleared of a token and a cooldown that have run out. */
  ghost predicate SameUser(cfg: Settings, u: UserRow, v: UserRow, bound: Time) {
    || u == v
    || (&& v.verifiedAt.None?
        && u == v.(tokenHash := None, expiresAt := None, requestedAt := None)
        && (v.tokenHash.Some? ==> v.expiresAt.Some? && v.expiresAt.value <= bound)
        && (v.requestedAt.Some? ==> v.requestedAt.value + cfg.resendCooldown <= bound))
  }

  ghost predicate SameUsers(cfg: Settings, s: map<UserId, UserRow>, t: map<UserId, UserRow>, bound: Time) {
    s.Keys == t.Keys && forall u <- t :: SameUser(cfg, s[u], t[u], bound)
  }

  ghost predicate SameSessions(s: map<Nonce, SessionRow>, t: map<Nonce, SessionRow>, bound: Time) {
    && (forall sid <- s :: sid in t && s[sid] == t[sid])
    && (forall sid <- t :: sid in s || t[sid].expiresAt <= bound)
  }

  ghost predicate SameCodes(s: map<Digest<Nonce>, CodeRow>, t: map<Digest<Nonce>, CodeRow>, bound: Time) {
    && (forall h <- s :: h in t && s[h] == t[h])
    && (forall h <- t :: h in s || t[h].expiresAt <= bound)
  }

  /** The pruned tables `s` against the full tables `t`: only rows that have expired by `bound` may be missing. */
  ghost predicate Pruned(cfg: Settings, s: Tables, t: Tables, bound: Time) {
    && SameUsers(cfg, s.users, t.users, bound)
    && SameSessions(s.sessions, t.sessions, bound)
    && SameCodes(s.codes, t.codes, bound)
  }

  lemma PrunedLater(cfg: Settings, s: Tables, t: Tables, bound: Time, later: Time)
    requires Pruned(cfg, s, t, bound) && bound <= later
    ensures Pruned(cfg, s, t, later)
  {
  }

  lemma PutUser(cfg: Settings, s: Tables, t: Tables, bound: Time, uid: UserId, u: UserRow, v: UserRow)
    requires Pruned(cfg, s, t, bound) && SameUser(cfg, u, v, bound)
    ensures Pruned(cfg, s.(users := s.users[uid := u]), t.(users := t.users[uid := v]), bound)
  {
  }

  lemma PutSession(cfg: Settings, s: Tables, t: Tables, bound: Time, sid: Nonce, row: SessionRow)
    requires Pruned(cfg, s, t, bound)
    ensures Pruned(cfg, s.(sessions := s.sessions[sid := row]), t.(sessions := t.sessions[sid := row]), bound)
    ensures sid !in s.sessions && row.expiresAt <= bound ==>
              Pruned(cfg, s, t.(sessions := t.sessions[sid := row]), bound)
  {
  }

  lemma PutCode(cfg: Settings, s: Tables, t: Tables, bound: Time, h: Digest<Nonce>, row: CodeRow)
    requires Pruned(cfg, s, t, bound)
    ensures Pruned(cfg, s.(codes := s.codes[h := row]), t.(codes := t.codes[h := row]), bound)
  {
  }

  lemma PruneBothCodes(cfg: Settings, s: Tables, t: Tables, bound: Time, at: Time)
    requires Pruned(cfg, s, t, bound)
    ensures Pruned(cfg, s.(codes := PruneCodeRows(s.codes, at)), t.(codes := PruneCodeRows(t.codes, at)), bound)
  {
  }

  ghost predicate Fresh(t: Tables, nonce: Nonce) { nonce !in t.sessions && Digest(nonce) !in t.codes }

  /** Both runs answer alike and stay related. */
  ghost predicate Alike(cfg: Settings, o: Outcome, p: Outcome, bound: Time) {
    o.response == p.response && Pruned(cfg, o.tables, p.tables, bound)
  }

  // ----- every request keeps the relation; `now` is no earlier than `bound` -----

  lemma RegistrationAlike(cfg: Settings, s: Tables, t: Tables, uid: UserId, row: UserRow, answer: Response,
                          faults: set<Statement>, bound: Time)
    requires Pruned(cfg, s, t, bound)
    ensures Alike(cfg, RegisterUser(s, uid, row, answer, faults), RegisterUser(t, uid, row, answer, faults), bound)
  {
    PutUser(cfg, s, t, bound, uid, row, row);
  }

  lemma ResendAlike(cfg: Settings, s: Tables, t: Tables, uid: UserId, now: Time, nonce: Nonce, faults: set<Statement>,
                    bound: Time)
    requires Pruned(cfg, s, t, bound) && bound <= now
    ensures Alike(cfg, RequestEmailVerification(cfg, s, uid, now, nonce, faults),
                  RequestEmailVerification(cfg, t, uid, now, nonce, faults), bound)
  {
    if uid in t.users {
      assert SameUser(cfg, s.users[uid], t.users[uid], bound);
      var u, v := Pending(cfg, s.users[uid], now, nonce), Pending(cfg, t.users[uid], now, nonce);
      assert u == v;
      PutUser(cfg, s, t, bound, uid, u, v);
    }
  }

  /** The full tables still hold a token that the pruned ones have lost. */
  ghost predicate Missing(s: Tables, t: Tables, uid: UserId, token: Nonce) {
    Holds(t.users, uid, token) && uid in s.users && s.users[uid].tokenHash.None?
  }

  ghost predicate Missed(s: Tables, t: Tables, token: Nonce) { exists uid :: Missing(s, t, uid, token) }

  /** A confirmation that finds its row and cannot commit. */
  predicate FailsToCommit(a: Action, faults: set<Statement>) {
    a.VerifyEmail? && a.token.Some? && ReadRow !in faults && CommitWork in faults
  }

  /** Such a confirmation of a lost token is all that is answered differently. */
  ghost predicate Exposes(s: Tables, t: Tables, a: Action, faults: set<Statement>) {
    FailsToCommit(a, faults) && Missed(s, t, a.token.value)
  }

  lemma LostTokenFound(cfg: Settings, s: Tables, t: Tables, token: Nonce, bound: Time)
    requires SameUsers(cfg, s.users, t.users, bound) && UniqueTokens(t)
    ensures var h, k := Holder(s.users, token), Holder(t.users, token);
            && (h.Some? ==> h == k && s.users[h.value] == t.users[h.value])
            && (h.None? && k.Some? ==>
                && Missing(s, t, k.value, token) && t.users[k.value].verifiedAt.None?
                && t.users[k.value].expiresAt.Some? && t.users[k.value].expiresAt.value <= bound)
            && (Missed(s, t, token) <==> h.None? && k.Some?)
  {
    var h, k := Holder(s.users, token), Holder(t.users, token);
    if h.Some? {
      assert SameUser(cfg, s.users[h.value], t.users[h.value], bound);
      assert Holds(t.users, h.value, token);
      assert forall uid :: Holds(t.users, uid, token) ==> uid == h.value;
    } else if k.Some? {
      assert SameUser(cfg, s.users[k.value], t.users[k.value], bound);
      assert !Holds(s.users, k.value, token);
      assert Missing(s, t, k.value, token);
    }
    if Missed(s, t, token) {
      var uid :| Missing(s, t, uid, token);
      assert Holds(t.users, uid, token);
    }
  }

  lemma ConfirmationAlike(cfg: Settings, s: Tables, t: Tables, token: Option<Nonce>, now: Time, faults: set<Statement>,
                          bound: Time)
    requires Pruned(cfg, s, t, bound) && bound <= now && UniqueTokens(t)
    ensures var o, p := ConfirmEmail(s, token, now, faults), ConfirmEmail(t, token, now, faults);
            && Pruned(cfg, o.tables, p.tables, bound)
            && (if Exposes(s, t, VerifyEmail(token), faults)
                then o.response == Failed(InvalidVerificationToken) && p.response == Failed(Unavailable)
                else o.response == p.response)
  {
    if token.Some? && ReadRow !in faults {
      var h, k := Holder(s.users, token.value), Holder(t.users, token.value);
      LostTokenFound(cfg, s, t, token.value, bound);
      if h.Some? {
        var user := t.users[h.value];
        var spent := user.(tokenHash := None, expiresAt := None);
        var confirmed := UserRow(Some(now), None, None, None, user.isActive);
        PutUser(cfg, s, t, bound, h.value, spent, spent);
        PutUser(cfg, s, t, bound, h.value, confirmed, confirmed);
      } else if k.Some? {
        var user := t.users[k.value];
        assert SameUser(cfg, s.users[k.value], user, bound);
        PutUser(cfg, s, t, bound, k.value, s.users[k.value], user.(tokenHash := None, expiresAt := None));
        assert s.users[k.value := s.users[k.value]] == s.users;
      }
    }
  }

  lemma DeactivationAlike(cfg: Settings, s: Tables, t: Tables, uid: UserId, faults: set<Statement>, bound: Time)
    requires Pruned(cfg, s, t, bound)
    ensures Alike(cfg, DeactivateAccount(s, uid, faults), DeactivateAccount(t, uid, faults), bound)
  {
    if uid in t.users {
      assert SameUser(cfg, s.users[uid], t.users[uid], bound);
      PutUser(cfg, s, t, bound, uid, s.users[uid].(isActive := false), t.users[uid].(isActive := false));
    }
  }

  lemma RefusalAlike(cfg: Settings, s: Tables, t: Tables, uid: UserId, passwordOk: bool, faults: set<Statement>,
                     bound: Time)
    requires Pruned(cfg, s, t, bound)
    ensures Refusal(s, uid, passwordOk, faults) == Refusal(t, uid, passwordOk, faults)
  {
    if uid in t.users { assert SameUser(cfg, s.users[uid], t.users[uid], bound); }
  }

  lemma CommitAlike(cfg: Settings, s: Tables, t: Tables, sid: Nonce, staged: Staged, faults: set<Statement>,
                    bound: Time)
    requires Pruned(cfg, s, t, bound) && sid !in t.sessions
    ensures Alike(cfg, CommitSession(s, sid, staged, faults), CommitSession(t, sid, staged, faults), bound)
  {
    PutSession(cfg, s, t, bound, sid, staged.row);
  }

  lemma LoginAlike(cfg: Settings, s: Tables, t: Tables, uid: UserId, passwordOk: bool, clk: Clock, nonce: Nonce,
                   faults: set<Statement>, bound: Time)
    requires Pruned(cfg, s, t, bound) && nonce !in t.sessions
    ensures Alike(cfg, LoginSession(cfg, s, uid, passwordOk, clk, nonce, faults),
                  LoginSession(cfg, t, uid, passwordOk, clk, nonce, faults), bound)
  {
    RefusalAlike(cfg, s, t, uid, passwordOk, faults, bound);
    var staged := StageLoginSession(cfg, uid, clk, nonce);
    if staged.Ok? { CommitAlike(cfg, s, t, nonce, staged.value, faults, bound); }
  }

  lemma IssueAlike(cfg: Settings, s: Tables, t: Tables, uid: UserId, passwordOk: bool, request: AuthorizationRequest,
                   clk: Clock, nonce: Nonce, faults: set<Statement>, bound: Time)
    requires Pruned(cfg, s, t, bound) && Digest(nonce) !in t.codes
    ensures Alike(cfg, IssueAuthorizationCode(cfg, s, uid, passwordOk, request, clk, nonce, faults),
                  IssueAuthorizationCode(cfg, t, uid, passwordOk, request, clk, nonce, faults), bound)
  {
    RefusalAlike(cfg, s, t, uid, passwordOk, faults, bound);
    PruneBothCodes(cfg, s, t, bound, clk.now);
    var s', t' := s.(codes := PruneCodeRows(s.codes, clk.now)), t.(codes := PruneCodeRows(t.codes, clk.now));
    PutCode(cfg, s', t', bound, Digest(nonce),
            CodeRow(uid, request.clientId, request.redirectUri, request.challenge, clk.began,
                    clk.now + cfg.codeTtlSeconds * SECOND, None));
  }

  lemma ExchangeAlike(cfg: Settings, s: Tables, t: Tables, request: TokenRequest, clk: Clock, nonce: Nonce,
                      faults: set<Statement>, bound: Time)
    requires Pruned(cfg, s, t, bound) && bound <= clk.now && nonce !in t.sessions
    ensures Alike(cfg, ExchangeCode(cfg, s, request, clk, nonce, faults),
                  ExchangeCode(cfg, t, request, clk, nonce, faults), bound)
  {
    var h := Digest(request.code);
    assert Redeemable(s.codes, request, clk.now) == Redeemable(t.codes, request, clk.now);
    if Redeemable(t.codes, request, clk.now) {
      var consumed := t.codes[h].(consumedAt := Some(clk.now));
      if consumed.userId in t.users { assert SameUser(cfg, s.users[consumed.userId], t.users[consumed.userId], bound); }
      var staged := StageLoginSession(cfg, consumed.userId, clk, nonce);
      if staged.Ok? { ConsumedAlike(cfg, s, t, h, consumed, nonce, staged.value, faults, bound); }
    }
  }

  lemma ConsumedAlike(cfg: Settings, s: Tables, t: Tables, h: Digest<Nonce>, consumed: CodeRow, nonce: Nonce,
                      staged: Staged, faults: set<Statement>, bound: Time)
    requires Pruned(cfg, s, t, bound) && nonce !in t.sessions
    ensures Alike(cfg, CommitSession(s.(codes := s.codes[h := consumed]), nonce, staged, faults),
                  CommitSession(t.(codes := t.codes[h := consumed]), nonce, staged, faults), bound)
  {
    PutCode(cfg, s, t, bound, h, consumed);
    CommitAlike(cfg, s.(codes := s.codes[h := consumed]), t.(codes := t.codes[h := consumed]), nonce, staged, faults,
                bound);
  }

  lemma RotationAlike(cfg: Settings, s: Tables, t: Tables, sid: Nonce, clk: Clock, nonce: Nonce, faults: set<Statement>,
                      bound: Time)
    requires Pruned(cfg, s, t, bound) && sid in s.sessions
    ensures Alike(cfg, RotateSession(cfg, s, sid, clk, nonce, faults),
                  RotateSession(cfg, t, sid, clk, nonce, faults), bound)
  {
    var row := t.sessions[sid];
    if row.userId in t.users { assert SameUser(cfg, s.users[row.userId], t.users[row.userId], bound); }
    PutSession(cfg, s, t, bound, sid, row.Revoked(clk.now));
    var pair := CreateTokenPair(cfg, UserSubject(row.userId), sid, clk.now, Some(row.absoluteExpiresAt), nonce);
    if pair.Ok? {
      PutSession(cfg, s, t, bound, sid, row.Rotated(Digest(pair.value.refresh), pair.value.refresh.exp, clk.now));
    }
  }

  lemma RefreshAlike(cfg: Settings, s: Tables, t: Tables, presented: Presented, clk: Clock, nonce: Nonce,
                     faults: set<Statement>, bound: Time)
    requires Pruned(cfg, s, t, bound) && bound <= clk.now
    ensures Alike(cfg, RefreshSession(cfg, s, presented, clk, nonce, faults),
                  RefreshSession(cfg, t, presented, clk, nonce, faults), bound)
  {
    if presented.Signed? && presented.token.sid in s.sessions {
      var sid := presented.token.sid;
      RotationAlike(cfg, s, t, sid, clk, nonce, faults, bound);
      PutSession(cfg, s, t, bound, sid, t.sessions[sid].Revoked(clk.now));
    }
  }

  /** A logout whose commit fails does not present a live token of a row that only the full tables still hold. */
  predicate NotMissed(s: Tables, t: Tables, presented: Presented, clk: Clock, faults: set<Statement>) {
    CommitWork in faults && DecodeRefreshToken(presented, clk.arrive).Ok? && presented.token.sid in t.sessions
    ==> presented.token.sid in s.sessions
  }

  lemma LogoutAlike(cfg: Settings, s: Tables, t: Tables, presented: Presented, clk: Clock, faults: set<Statement>,
                    bound: Time)
    requires Pruned(cfg, s, t, bound) && NotMissed(s, t, presented, clk, faults)
    ensures Alike(cfg, RevokeRefreshSession(s, presented, clk, faults),
                  RevokeRefreshSession(t, presented, clk, faults), bound)
  {
    if presented.Signed? && presented.token.sid in t.sessions {
      var sid := presented.token.sid;
      PutSession(cfg, s, t, bound, sid, t.sessions[sid].Revoked(clk.now));
    }
  }

  lemma RequestsAlike(cfg: Settings, s: Tables, t: Tables, e: Event, bound: Time)
    requires Pruned(cfg, s, t, bound) && bound <= e.clk.now && Fresh(t, e.nonce) && UniqueTokens(t)
    requires !IsMaintenance(e.action)
    requires e.action.Logout? ==> NotMissed(s, t, e.action.presented, e.clk, e.faults)
    ensures var o, p := Step(cfg, s, e), Step(cfg, t, e);
            && Pruned(cfg, o.tables, p.tables, bound)
            && (if Exposes(s, t, e.action, e.faults)
                then o.response == Failed(InvalidVerificationToken) && p.response == Failed(Unavailable)
                else o.response == p.response)
  {
    match e.action
    case Register(uid) =>
      RegistrationAlike(cfg, s, t, uid, Pending(cfg, NEW_USER, e.clk.now, e.nonce),
                        Verification(uid, e.nonce, e.clk.now + cfg.verificationTtl), e.faults, bound);
    case RegisterTrusted(uid) =>
      RegistrationAlike(cfg, s, t, uid, NEW_USER.(verifiedAt := Some(e.clk.now)), Done, e.faults, bound);
    case RequestVerification(uid) => ResendAlike(cfg, s, t, uid, e.clk.now, e.nonce, e.faults, bound);
    case VerifyEmail(token) => ConfirmationAlike(cfg, s, t, token, e.clk.now, e.faults, bound);
    case Login(uid, passwordOk) => LoginAlike(cfg, s, t, uid, passwordOk, e.clk, e.nonce, e.faults, bound);
    case IssueCode(uid, passwordOk, request) =>
      IssueAlike(cfg, s, t, uid, passwordOk, request, e.clk, e.nonce, e.faults, bound);
    case Exchange(request) => ExchangeAlike(cfg, s, t, request, e.clk, e.nonce, e.faults, bound);
    case Refresh(presented) => RefreshAlike(cfg, s, t, presented, e.clk, e.nonce, e.faults, bound);
    case Logout(presented) => LogoutAlike(cfg, s, t, presented, e.clk, e.faults, bound);
    case Deactivate(uid) => DeactivationAlike(cfg, s, t, uid, e.faults, bound);
    case _ => assert false;
  }

  /** What the clearing job finds: expiry is request time plus TTL. */
  ghost predicate TimesAgree(cfg: Settings, users: map<UserId, UserRow>) {
    forall u <- users :: users[u].tokenHash.Some? ==>
      && users[u].requestedAt.Some?
      && users[u].expiresAt == Some(users[u].requestedAt.value + cfg.verificationTtl)
  }

  lemma ClearingKeepsUsers(cfg: Settings, s: map<UserId, UserRow>, t: map<UserId, UserRow>, bound: Time, now: Time)
    requires SameUsers(cfg, s, t, bound) && bound <= now
    requires TimesAgree(cfg, s) && cfg.resendCooldown <= cfg.verificationTtl
    ensures SameUsers(cfg, ClearUserRows(s, now), t, now)
  {
    forall u <- t ensures SameUser(cfg, ClearUserRows(s, now)[u], t[u], now) {
      assert SameUser(cfg, s[u], t[u], bound);
    }
  }

  lemma JobsKeepRelation(cfg: Settings, s: Tables, t: Tables, e: Event, bound: Time)
    requires Pruned(cfg, s, t, bound) && bound <= e.clk.now && IsMaintenance(e.action)
    requires e.action.ClearVerification? ==> cfg.resendCooldown <= cfg.verificationTtl
    requires TimesAgree(cfg, s.users)
    ensures Pruned(cfg, Maintain(s, e.action, e.clk.now, e.faults).tables, t, e.clk.now)
  {
    PrunedLater(cfg, s, t, bound, e.clk.now);
    if e.action.ClearVerification? {
      ClearingKeepsUsers(cfg, s.users, t.users, bound, e.clk.now);
    }
  }

  /** A token that has run out, of an account that still waits for its confirmation. */
  predicate HasExpiredToken(user: UserRow, now: Time) {
    user.verifiedAt.None? && user.tokenHash.Some? && user.expiresAt.Some? && now >= user.expiresAt.value
  }

  /** A job that is answered leaves no expired row (for the clearing job: no expired token of an unverified account)
      and every other row as it was. */
  lemma JobsRemoveExpired(t: Tables, job: Action, now: Time, faults: set<Statement>)
    requires IsMaintenance(job)
    ensures var o := Maintain(t, job, now, faults);
            && (o.response == Done <==> faults !! {WriteRow, CommitWork})
            && (o.response != Done ==> o == Fail(t, Unavailable))
            && (forall sid <- t.sessions :: t.sessions[sid].expiresAt > now ==>
                  sid in o.tables.sessions && o.tables.sessions[sid] == t.sessions[sid])
            && (forall h <- t.codes :: t.codes[h].expiresAt > now ==>
                  h in o.tables.codes && o.tables.codes[h] == t.codes[h])
            && (forall u <- t.users ::
                  u in o.tables.users && (!HasExpiredToken(t.users[u], now) ==> o.tables.users[u] == t.users[u]))
            && (!job.PruneSessions? ==> o.tables.sessions == t.sessions)
            && (!job.PruneCodes? ==> o.tables.codes == t.codes)
            && (if job.ClearVerification? then o.tables.users.Keys == t.users.Keys else o.tables.users == t.users)
            && (o.response == Done && job.PruneSessions? ==>
                  forall sid <- o.tables.sessions :: sid in t.sessions && o.tables.sessions[sid].expiresAt > now)
            && (o.response == Done && job.PruneCodes? ==>
                  forall h <- o.tables.codes :: h in t.codes && o.tables.codes[h].expiresAt > now)
            && (o.response == Done && job.ClearVerification? ==>
                  forall u <- t.users :: HasExpiredToken(t.users[u], now) ==>
                    o.tables.users[u] == UserRow(None, None, None, None, t.users[u].isActive))
  {
  }

  // ----- whole runs -----

  lemma {:induction false} KeepSelects(clears: bool, events: seq<Event>)
    ensures forall e <- Keep(clears, events) :: e in events
  {
    if events != [] {
      KeepSelects(clears, events[..|events| - 1]);
    }
  }

  lemma {:induction false} KeepStaysFresh(clears: bool, events: seq<Event>)
    requires FreshNonces(events)
    ensures FreshNonces(Keep(clears, events))
  {
    if events != [] {
      var before, last := events[..|events| - 1], events[|events| - 1];
      KeepStaysFresh(clears, before);
      KeepSelects(clears, before);
      var kept := Keep(clears, before);
      forall i | 0 <= i < |kept| ensures kept[i].nonce != last.nonce {
        assert kept[i] in before;
      }
    }
  }

  /** Codes carry the randomness of the request that issued them. */
  lemma {:induction false} CodesAreLogged(cfg: Settings, events: seq<Event>, nonce: Nonce)
    requires Digest(nonce) in Run(cfg, events).tables.codes
    ensures exists i :: 0 <= i < |events| && events[i].nonce == nonce
  {
    var before, e := events[..|events| - 1], events[|events| - 1];
    Authorization.CodeEffects(cfg, Run(cfg, before).tables, e, nonce);
    if e.nonce != nonce {
      CodesAreLogged(cfg, before, nonce);
      var i :| 0 <= i < |before| && before[i].nonce == nonce;
      assert events[i] == before[i];
    }
  }

  lemma RowsAreFresh(cfg: Settings, events: seq<Event>, nonce: Nonce)
    requires IsRun(cfg, events) && forall e <- events :: e.nonce != nonce
    ensures Fresh(Run(cfg, events).tables, nonce)
  {
    Rotation.RotationChain(cfg, events, nonce);
    if Digest(nonce) in Run(cfg, events).tables.codes { CodesAreLogged(cfg, events, nonce); }
  }

  lemma HashesAreUnique(cfg: Settings, events: seq<Event>)
    requires FreshNonces(events)
    ensures UniqueTokens(Run(cfg, events).tables)
  {
    var t := Run(cfg, events).tables;
    forall u, v, token | Holds(t.users, u, token) && Holds(t.users, v, token) ensures u == v {
      TokensNameTheirAccount(cfg, events, u, v, token);
    }
  }

  lemma PendingTimesAgree(cfg: Settings, events: seq<Event>)
    ensures TimesAgree(cfg, Run(cfg, events).tables.users)
  {
    var users := Run(cfg, events).tables.users;
    forall u | u in users && users[u].tokenHash.Some?
      ensures users[u].requestedAt.Some?
      ensures users[u].expiresAt == Some(users[u].requestedAt.value + cfg.verificationTtl)
    {
      PendingRowShape(cfg, events, u);
    }
  }

  lemma GenuineBefore(cfg: Settings, events: seq<Event>)
    requires AllGenuine(cfg, events) && events != []
    ensures AllGenuine(cfg, events[..|events| - 1])
    ensures Genuine(Run(cfg, events[..|events| - 1]).log, events[|events| - 1])
  {
    var before := events[..|events| - 1];
    forall n | 0 <= n < |before| ensures Genuine(Run(cfg, before[..n]).log, before[n]) {
      assert before[..n] == events[..n] && before[n] == events[n];
    }
  }

  lemma TimedBefore(cfg: Settings, events: seq<Event>)
    requires IsRun(cfg, events) && MonotoneClock(events) && events != []
    ensures var before, e := events[..|events| - 1], events[|events| - 1];
            && IsRun(cfg, before) && MonotoneClock(before) && OrderedReadings(e.clk)
            && (forall x <- before :: x.nonce != e.nonce)
            && (before != [] ==> before[|before| - 1].clk.now <= e.clk.arrive)
  {
    var before := events[..|events| - 1];
    if before != [] { assert OrderedReadings(events[|before| - 1].clk); }
  }

  lemma AccountsFollow(cfg: Settings, s: Tables, t: Tables, e: Event)
    requires s.users == t.users
    ensures Step(cfg, s, e).tables.users == Step(cfg, t, e).tables.users
  {
    match e.action
    case Register(_) =>
    case RegisterTrusted(_) =>
    case RequestVerification(_) =>
    case VerifyEmail(_) =>
    case Deactivate(_) =>
    case ClearVerification =>
    case _ =>
      AccountsUntouched(cfg, s, e);
      AccountsUntouched(cfg, t, e);
  }

  /** The clearing job, run on both tables, where the accounts are the same. */
  lemma SharedClearing(cfg: Settings, s: Tables, t: Tables, e: Event, bound: Time)
    requires Pruned(cfg, s, t, bound) && s.users == t.users && e.action.ClearVerification?
    ensures Alike(cfg, Step(cfg, s, e), Step(cfg, t, e), bound)
  {
  }

  /** The tables, pruned and full, before and after one more request or job. */
  ghost predicate StepAlike(cfg: Settings, clears: bool, s: Tables, t: Tables, e: Event) {
    var o, p := Step(cfg, s, e), Step(cfg, t, e);
    if Drops(clears, e.action) then Pruned(cfg, o.tables, t, e.clk.now) && (!clears ==> o.tables.users == t.users)
    else
      && Pruned(cfg, o.tables, p.tables, e.clk.now) && (!clears ==> o.tables.users == p.tables.users)
      && (if Exposes(s, t, e.action, e.faults)
          then o.response == Failed(InvalidVerificationToken) && p.response == Failed(Unavailable)
          else o.response == p.response)
  }

  lemma SimulationStep(cfg: Settings, clears: bool, s: Tables, t: Tables, e: Event)
    requires Pruned(cfg, s, t, e.clk.arrive) && OrderedReadings(e.clk)
    requires Fresh(t, e.nonce) && UniqueTokens(t) && TimesAgree(cfg, s.users)
    requires if clears then cfg.resendCooldown <= cfg.verificationTtl else s.users == t.users
    requires e.action.Logout? ==> NotMissed(s, t, e.action.presented, e.clk, e.faults)
    ensures StepAlike(cfg, clears, s, t, e)
  {
    if Drops(clears, e.action) {
      JobsKeepRelation(cfg, s, t, e, e.clk.arrive);
      if !clears { AccountsUntouched(cfg, s, e); }
    } else {
      if e.action.ClearVerification? {
        SharedClearing(cfg, s, t, e, e.clk.arrive);
      } else {
        RequestsAlike(cfg, s, t, e, e.clk.arrive);
      }
      PrunedLater(cfg, Step(cfg, s, e).tables, Step(cfg, t, e).tables, e.clk.arrive, e.clk.now);
      if !clears { AccountsFollow(cfg, s, t, e); }
    }
  }

  // ----- genuine tokens do not outlive their row -----

  lemma {:induction false} ChainInOrder(log: seq<Entry>, sid: Nonce)
    requires forall i, j :: 0 <= i < j < |log| ==> log[i].event.clk.now <= log[j].event.clk.now
    ensures var c := Chain(log, sid); forall i, j :: 0 <= i < j < |c| ==> c[i].at <= c[j].at
  {
    if log != [] {
      var before, last := log[..|log| - 1], log[|log| - 1];
      assert forall i :: 0 <= i < |before| ==> before[i] == log[i];
      ChainInOrder(before, sid);
      Redemption.ChainIsNotFromTheFuture(before, sid, last.event.clk.now);
      assert log == before + [last];
      HistoryGrows(before, last, sid);
    }
  }

  lemma IssuedEndsWithRow(cfg: Settings, t: Tables, used: set<Nonce>, c: seq<Issue>, sid: Nonce, i: nat)
    requires SessionInv(cfg, t, used, c, sid) && sid in t.sessions && i < |c|
    requires forall i, j :: 0 <= i < j < |c| ==> c[i].at <= c[j].at
    ensures c[i].pair.refresh.exp <= t.sessions[sid].expiresAt
  {
    var deadline := Deadline(cfg, c);
    assert IssueOk(cfg, used, sid, c, i);
    FloorSecondMonotone(Min(c[i].at + cfg.RefreshLifetime(), deadline),
                        Min(c[|c| - 1].at + cfg.RefreshLifetime(), deadline));
  }

  lemma IssuedTokensEndWithRow(cfg: Settings, events: seq<Event>, log: seq<Entry>, token: RefreshToken)
    requires IsRun(cfg, events) && WasIssued(log, token) && token.sid in Run(cfg, events).tables.sessions
    requires Chain(log, token.sid) == Chain(Run(cfg, events).log, token.sid)
    requires forall i, j :: 0 <= i < j < |log| ==> log[i].event.clk.now <= log[j].event.clk.now
    ensures token.exp <= Run(cfg, events).tables.sessions[token.sid].expiresAt
  {
    var h, c := Run(cfg, events), Chain(log, token.sid);
    RotationChain(cfg, events, token.sid);
    ChainInOrder(log, token.sid);
    var i: nat :| IssuedAt(c, token, i);
    IssuedEndsWithRow(cfg, h.tables, Nonces(h.log), c, token.sid, i);
  }

  lemma GenuineNotMissed(cfg: Settings, clears: bool, before: seq<Event>, e: Event)
    requires IsRun(cfg, before) && MonotoneClock(before) && e.action.Logout? && Genuine(Run(cfg, before).log, e)
    requires SameChains(Run(cfg, before).log, Run(cfg, Keep(clears, before)).log)
    requires Pruned(cfg, Run(cfg, before).tables, Run(cfg, Keep(clears, before)).tables, e.clk.arrive)
    ensures var s, t := Run(cfg, before).tables, Run(cfg, Keep(clears, before)).tables;
            NotMissed(s, t, e.action.presented, e.clk, e.faults)
  {
    var g, h := Run(cfg, before), Run(cfg, Keep(clears, before));
    if CommitWork in e.faults && e.action.presented.Signed? && e.action.presented.token.sid in h.tables.sessions {
      KeepStaysFresh(clears, before);
      IssuedTokensEndWithRow(cfg, Keep(clears, before), g.log, e.action.presented.token);
    }
  }

  // ----- the simulation -----

  ghost predicate SameChains(log: seq<Entry>, log': seq<Entry>) {
    forall sid :: Chain(log, sid) == Chain(log', sid)
  }

  lemma SameChainsGrow(log: seq<Entry>, log': seq<Entry>, e: Event, r: Response, r': Response)
    requires SameChains(log, log') && (r == r' || (!r.Tokens? && !r'.Tokens?))
    ensures SameChains(log + [Entry(e, r)], log' + [Entry(e, r')])
    ensures !r.Tokens? ==> SameChains(log + [Entry(e, r)], log')
  {
    forall sid
      ensures Chain(log + [Entry(e, r)], sid) == Chain(log' + [Entry(e, r')], sid)
      ensures !r.Tokens? ==> Chain(log + [Entry(e, r)], sid) == Chain(log', sid)
    {
      HistoryGrows(log, Entry(e, r), sid);
      HistoryGrows(log', Entry(e, r'), sid);
    }
  }

  lemma JobsIssueNothing(cfg: Settings, t: Tables, e: Event)
    requires IsMaintenance(e.action)
    ensures !Step(cfg, t, e).response.Tokens?
  {
  }

  lemma VisibleGrows(clears: bool, log: seq<Entry>, x: Entry)
    ensures Visible(clears, log + [x])
            == if Drops(clears, x.event.action) then Visible(clears, log) else Visible(clears, log) + [x]
  {
    assert (log + [x])[..|log + [x]| - 1] == log;
  }

  lemma ReadyForNext(cfg: Settings, clears: bool, before: seq<Event>, e: Event)
    requires IsRun(cfg, before) && forall x <- before :: x.nonce != e.nonce
    ensures var t := Run(cfg, Keep(clears, before)).tables; Fresh(t, e.nonce) && UniqueTokens(t)
    ensures TimesAgree(cfg, Run(cfg, before).tables.users)
  {
    KeepStaysFresh(clears, before);
    KeepSelects(clears, before);
    RowsAreFresh(cfg, Keep(clears, before), e.nonce);
    HashesAreUnique(cfg, Keep(clears, before));
    PendingTimesAgree(cfg, before);
  }

  ghost predicate Simulates(cfg: Settings, clears: bool, events: seq<Event>) {
    var g, h := Run(cfg, events), Run(cfg, Keep(clears, events));
    && (forall bound :: (events != [] ==> events[|events| - 1].clk.now <= bound) ==>
          Pruned(cfg, g.tables, h.tables, bound))
    && (!clears ==> g.tables.users == h.tables.users)
    && SameChains(g.log, h.log)
  }

  /** The tables of both runs before the last event are ready for it. */
  lemma LastStepAlike(cfg: Settings, clears: bool, events: seq<Event>)
    requires Sound(cfg, events) && events != [] && Simulates(cfg, clears, events[..|events| - 1])
    requires clears ==> cfg.resendCooldown <= cfg.verificationTtl
    ensures var before, e := events[..|events| - 1], events[|events| - 1];
            StepAlike(cfg, clears, Run(cfg, before).tables, Run(cfg, Keep(clears, before)).tables, e)
  {
    var before, e := events[..|events| - 1], events[|events| - 1];
    TimedBefore(cfg, events);
    GenuineBefore(cfg, events);
    ReadyForNext(cfg, clears, before, e);
    if e.action.Logout? { GenuineNotMissed(cfg, clears, before, e); }
    SimulationStep(cfg, clears, Run(cfg, before).tables, Run(cfg, Keep(clears, before)).tables, e);
  }

  lemma SimulationGrows(cfg: Settings, clears: bool, events: seq<Event>)
    requires events != [] && Simulates(cfg, clears, events[..|events| - 1])
    requires var before, e := events[..|events| - 1], events[|events| - 1];
             StepAlike(cfg, clears, Run(cfg, before).tables, Run(cfg, Keep(clears, before)).tables, e)
    ensures Simulates(cfg, clears, events)
  {
    var before, e := events[..|events| - 1], events[|events| - 1];
    var g, h := Run(cfg, before), Run(cfg, Keep(clears, before));
    var r, r' := Step(cfg, g.tables, e).response, Step(cfg, h.tables, e).response;
    if Drops(clears, e.action) {
      JobsIssueNothing(cfg, g.tables, e);
      SameChainsGrow(g.log, h.log, e, r, r);
    } else {
      SameChainsGrow(g.log, h.log, e, r, r');
      RunSnoc(cfg, Keep(clears, before), e);
    }
    LaterBounds(cfg, Run(cfg, events).tables, Run(cfg, Keep(clears, events)).tables, e.clk.now);
  }

  lemma LaterBounds(cfg: Settings, s: Tables, t: Tables, now: Time)
    requires Pruned(cfg, s, t, now)
    ensures forall bound :: now <= bound ==> Pruned(cfg, s, t, bound)
  {
    forall bound | now <= bound ensures Pruned(cfg, s, t, bound) { PrunedLater(cfg, s, t, now, bound); }
  }

  lemma {:induction false} Simulation(cfg: Settings, clears: bool, events: seq<Event>)
    requires Sound(cfg, events) && (clears ==> cfg.resendCooldown <= cfg.verificationTtl)
    ensures Simulates(cfg, clears, events)
  {
    if events != [] {
      TimedBefore(cfg, events);
      GenuineBefore(cfg, events);
      Simulation(cfg, clears, events[..|events| - 1]);
      LastStepAlike(cfg, clears, events);
      SimulationGrows(cfg, clears, events);
    }
  }

  // ----- answers -----

  /** No failing confirmation ever presents a token that only the full tables still hold. */
  ghost predicate NeverExposed(cfg: Settings, clears: bool, events: seq<Event>) {
    events != [] ==>
      var before, e := events[..|events| - 1], events[|events| - 1];
      && NeverExposed(cfg, clears, before)
      && !Exposes(Run(cfg, before).tables, Run(cfg, Keep(clears, before)).tables, e.action, e.faults)
  }

  lemma SnocEqual(a: seq<Entry>, b: seq<Entry>, x: Entry, y: Entry)
    ensures a + [x] == b + [y] <==> a == b && x == y
  {
    if a + [x] == b + [y] {
      assert a == (a + [x])[..|a|] && b == (b + [y])[..|b|];
      assert x == (a + [x])[|a|] && y == (b + [y])[|b|];
    }
  }

  lemma AnswersGrow(cfg: Settings, clears: bool, events: seq<Event>)
    requires events != []
    requires var before, e := events[..|events| - 1], events[|events| - 1];
             StepAlike(cfg, clears, Run(cfg, before).tables, Run(cfg, Keep(clears, before)).tables, e)
    ensures var before, e := events[..|events| - 1], events[|events| - 1];
            Unobservable(cfg, clears, events) <==>
              && Unobservable(cfg, clears, before)
              && !Exposes(Run(cfg, before).tables, Run(cfg, Keep(clears, before)).tables, e.action, e.faults)
  {
    var before, e := events[..|events| - 1], events[|events| - 1];
    var g, h := Run(cfg, before), Run(cfg, Keep(clears, before));
    var x, y := Entry(e, Step(cfg, g.tables, e).response), Entry(e, Step(cfg, h.tables, e).response);
    VisibleGrows(clears, g.log, x);
    if !Drops(clears, e.action) {
      RunSnoc(cfg, Keep(clears, before), e);
      SnocEqual(Visible(clears, g.log), h.log, x, y);
    }
  }

  lemma {:induction false} UnobservableUnlessExposed(cfg: Settings, clears: bool, events: seq<Event>)
    requires Sound(cfg, events) && (clears ==> cfg.resendCooldown <= cfg.verificationTtl)
    ensures Unobservable(cfg, clears, events) <==> NeverExposed(cfg, clears, events)
  {
    if events != [] {
      TimedBefore(cfg, events);
      GenuineBefore(cfg, events);
      UnobservableUnlessExposed(cfg, clears, events[..|events| - 1]);
      Simulation(cfg, clears, events[..|events| - 1]);
      LastStepAlike(cfg, clears, events);
      AnswersGrow(cfg, clears, events);
    }
  }

  lemma {:induction false} PrunesExposeNothing(cfg: Settings, events: seq<Event>)
    requires Sound(cfg, events)
    ensures NeverExposed(cfg, false, events)
  {
    if events != [] {
      TimedBefore(cfg, events);
      GenuineBefore(cfg, events);
      PrunesExposeNothing(cfg, events[..|events| - 1]);
      Simulation(cfg, false, events[..|events| - 1]);
    }
  }

  /** Deleting every prune job from a run leaves every answer of everything else the same, whatever the settings, the
      clearing jobs in the run and the statements that fail. */
  lemma PruningUnobservable(cfg: Settings, events: seq<Event>)
    requires Sound(cfg, events)
    ensures Unobservable(cfg, false, events)
  {
    PrunesExposeNothing(cfg, events);
    UnobservableUnlessExposed(cfg, false, events);
  }
}
