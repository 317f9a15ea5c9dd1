/** A limit of the code: a refresh reads the clock before it waits for the row lock, so the reading may be older than
    the rotation it follows. */
module StaleClock {
  import opened Base
  import opened Security
  import opened Store
  import opened Credentials
  import opened Rotation

  ghost predicate ExpiryMovesBack(cfg: Settings, events: seq<Event>, e: Event, sid: Nonce) {
    var before, after := Run(cfg, events).tables.sessions, Run(cfg, events + [e]).tables.sessions;
    IsRun(cfg, events + [e]) && sid in before && sid in after && after[sid].expiresAt < before[sid].expiresAt
  }

  const DAY := 86_400 * SECOND
  const DEMO := Settings(1, 1, 30 * DAY, 5 * SECOND, 60, SECOND, 0, "client", {"uri"})

  function DemoToken(at: Time, jti: Nonce): RefreshToken {
    RefreshToken(UserSubject(1), 2, at + DAY, at, jti, CANONICAL)
  }

  function DemoEvent(action: Action, at: Time, nonce: Nonce): Event {
    Event(action, Clock(at, at, at, at), nonce, {})
  }

  const DEMO_USERS := map[1 := NEW_USER.(verifiedAt := Some(0))]
  const DEMO_OPENED := SessionRow(1, Digest(DemoToken(0, 2)), None, 0, DAY, 30 * DAY, None, Some(0), None)
  const DEMO_RETRY := Refresh(Signed(DemoToken(0, 2)))

  const DEMO_OPENING := [DemoEvent(RegisterTrusted(1), 0, 1)] + [DemoEvent(Login(1, true), 0, 2)]

  lemma DemoLogin()
    ensures Run(DEMO, DEMO_OPENING).tables == Tables(DEMO_USERS, map[2 := DEMO_OPENED], map[])
  {
    var e1, e2 := DemoEvent(RegisterTrusted(1), 0, 1), DemoEvent(Login(1, true), 0, 2);
    assert [] + [e1] == [e1];
    RunSnoc(DEMO, [], e1);
    assert Run(DEMO, [e1]).tables == Tables(DEMO_USERS, map[], map[]);
    RunSnoc(DEMO, [e1], e2);
    PairWithinDeadline(DEMO, UserSubject(1), 2, 0, 30 * DAY, 2);
  }

  /** A retry of the first token at whole second `at`, read while the row is active and holds it. */
  lemma DemoRefresh(row: SessionRow, at: Time, nonce: Nonce)
    requires 0 <= at <= 10 * SECOND && at % SECOND == 0
    requires row.userId == 1 && row.Constraints() && row.createdAt == 0 && row.absoluteExpiresAt == 30 * DAY
    requires row.IsActive(at)
    requires IsCurrent(row, DemoToken(0, 2)) || IsRecoverablePrevious(DEMO, row, DemoToken(0, 2), at)
    ensures var t := Tables(DEMO_USERS, map[2 := row], map[]);
            Step(DEMO, t, DemoEvent(DEMO_RETRY, at, nonce)).tables
            == Tables(DEMO_USERS, map[2 := row.Rotated(Digest(DemoToken(at, nonce)), at + DAY, at)], map[])
  {
    PairWithinDeadline(DEMO, UserSubject(1), 2, at, 30 * DAY, nonce);
  }

  lemma DemoRotation(events: seq<Event>, row: SessionRow, at: Time, nonce: Nonce)
    requires Run(DEMO, events).tables == Tables(DEMO_USERS, map[2 := row], map[])
    requires 0 <= at <= 10 * SECOND && at % SECOND == 0
    requires row.userId == 1 && row.Constraints() && row.createdAt == 0 && row.absoluteExpiresAt == 30 * DAY
    requires row.IsActive(at)
    requires IsCurrent(row, DemoToken(0, 2)) || IsRecoverablePrevious(DEMO, row, DemoToken(0, 2), at)
    ensures Run(DEMO, events + [DemoEvent(DEMO_RETRY, at, nonce)]).tables
            == Tables(DEMO_USERS, map[2 := row.Rotated(Digest(DemoToken(at, nonce)), at + DAY, at)], map[])
  {
    RunSnoc(DEMO, events, DemoEvent(DEMO_RETRY, at, nonce));
    DemoRefresh(row, at, nonce);
  }

  /** A refresh reads the clock before it waits for the row lock. With such a stale reading, which the monotone-clock
      assumption excludes, an accepted retry does move the expiry of a session back. */
  lemma StaleReadingMovesExpiryBack()
    ensures exists cfg, events, e, sid :: ExpiryMovesBack(cfg, events, e, sid)
  {
    var late, early := 10 * SECOND, 5 * SECOND;
    var e3, e4 := DemoEvent(DEMO_RETRY, late, 3), DemoEvent(DEMO_RETRY, early, 4);
    DemoLogin();
    DemoRotation(DEMO_OPENING, DEMO_OPENED, late, 3);
    var rotated := DEMO_OPENED.Rotated(Digest(DemoToken(late, 3)), late + DAY, late);
    DemoRotation(DEMO_OPENING + [e3], rotated, early, 4);
    DemoIsRun(e3, e4);
    assert ExpiryMovesBack(DEMO, DEMO_OPENING + [e3], e4, 2);
  }

  lemma DemoIsRun(e3: Event, e4: Event)
    requires e3.nonce == 3 && e4.nonce == 4
    ensures IsRun(DEMO, DEMO_OPENING + [e3] + [e4])
  {
  }

  // ----- exactly when -----

  lemma FloorShifts(t: Time, seconds: int)
    ensures FloorSecond(t + seconds * SECOND) == FloorSecond(t) + seconds * SECOND
  {
  }

  lemma FloorOfMin(a: Time, b: Time)
    ensures FloorSecond(Min(a, b)) == Min(FloorSecond(a), FloorSecond(b))
  {
    FloorSecondMonotone(Min(a, b), a + b - Min(a, b));
  }

  /** In every reachable state an accepted refresh moves the expiry back exactly if its reading lies in an earlier
      second than the last use of the session, and its own lifetime ends before the deadline's second. */
  lemma ExpiryMovesBackIff(cfg: Settings, events: seq<Event>, e: Event)
    requires IsRun(cfg, events) && e.action.Refresh? && e.action.presented.Signed?
    requires Step(cfg, Run(cfg, events).tables, e).response.Tokens?
    ensures var before := Run(cfg, events).tables.sessions;
            var after := Step(cfg, Run(cfg, events).tables, e).tables.sessions;
            var sid := e.action.presented.token.sid;
            && sid in before && sid in after && before[sid].lastUsedAt.Some?
            && (after[sid].expiresAt < before[sid].expiresAt <==>
                && FloorSecond(e.clk.now) < FloorSecond(before[sid].lastUsedAt.value)
                && FloorSecond(e.clk.now) + cfg.RefreshLifetime() < FloorSecond(before[sid].absoluteExpiresAt))
  {
    var h, sid := Run(cfg, events), e.action.presented.token.sid;
    AnsweredRefreshRotates(cfg, h.tables, e);
    RotationChain(cfg, events, sid);
    StoredExpiry(cfg, h.tables.sessions[sid], Chain(h.log, sid));
    RotatedExpiry(cfg, h.tables, e);
  }

  lemma AnsweredRefreshRotates(cfg: Settings, t: Tables, e: Event)
    requires e.action.Refresh? && Step(cfg, t, e).response.Tokens?
    ensures Rotates(cfg, t, e, Step(cfg, t, e))
  {
    SessionEffects(cfg, t, e);
  }

  lemma StoredExpiry(cfg: Settings, row: SessionRow, c: seq<Issue>)
    requires RowOk(cfg, row, c)
    ensures row.lastUsedAt.Some?
    ensures row.expiresAt
            == Min(FloorSecond(row.lastUsedAt.value) + cfg.RefreshLifetime(), FloorSecond(row.absoluteExpiresAt))
  {
    FloorOfMin(row.lastUsedAt.value + cfg.RefreshLifetime(), row.absoluteExpiresAt);
    FloorShifts(row.lastUsedAt.value, cfg.refreshTokenDays * 86_400);
  }

  lemma RotatedExpiry(cfg: Settings, t: Tables, e: Event)
    requires cfg.Valid() && Rotates(cfg, t, e, Step(cfg, t, e))
    ensures var sid := e.action.presented.token.sid;
            && sid in t.sessions && sid in Step(cfg, t, e).tables.sessions
            && Step(cfg, t, e).tables.sessions[sid].expiresAt
               == Min(FloorSecond(e.clk.now) + cfg.RefreshLifetime(), FloorSecond(t.sessions[sid].absoluteExpiresAt))
  {
    var sid, row := e.action.presented.token.sid, t.sessions[e.action.presented.token.sid];
    PairWithinDeadline(cfg, UserSubject(row.userId), sid, e.clk.now, row.absoluteExpiresAt, e.nonce);
    FloorOfMin(e.clk.now + cfg.RefreshLifetime(), row.absoluteExpiresAt);
    FloorShifts(e.clk.now, cfg.refreshTokenDays * 86_400);
  }
}
