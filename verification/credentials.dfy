/** The credential services as one transition system: what each request and each maintenance job does to the
    committed tables, and what it answers. The methods of module `Services` are proved against these functions. */
module Credentials {
  import opened Base
  import opened Security
  import opened Store

  datatype AuthorizationRequest = AuthorizationRequest(clientId: string, redirectUri: string, blankScope: bool,
                                                       challenge: string)

  datatype TokenRequest = TokenRequest(code: Nonce, clientId: string, redirectUri: string, challenge: string)

  datatype Action =
    | Register(uid: UserId)
    | RegisterTrusted(uid: UserId)
    | RequestVerification(uid: UserId)
    | VerifyEmail(token: Option<Nonce>)
    | Login(uid: UserId, passwordOk: bool)
    | IssueCode(uid: UserId, passwordOk: bool, authorization: AuthorizationRequest)
    | Exchange(exchange: TokenRequest)
    | Refresh(presented: Presented)
    | Logout(presented: Presented)
    | Deactivate(uid: UserId)
    | PruneSessions
    | PruneCodes
    | ClearVerification

  /** One request: its clock readings, the randomness it draws, and the statements that fail. */
  datatype Event = Event(action: Action, clk: Clock, nonce: Nonce, faults: set<Statement>)

  datatype Response =
    | Tokens(pair: TokenPair)
    | Code(code: Nonce)
    | Verification(uid: UserId, token: Nonce, expiresAt: Time)
    | Verified(uid: UserId)
    | Done
    | Failed(error: Error)

  datatype Outcome = Outcome(tables: Tables, response: Response)

  function Fail(t: Tables, error: Error): Outcome { Outcome(t, Failed(error)) }

  // ----- accounts -----

  function RegisterUser(t: Tables, uid: UserId, row: UserRow, answer: Response, faults: set<Statement>): Outcome {
    if ReadRow in faults then Fail(t, Unavailable)
    else if uid in t.users then Fail(t, EmailAlreadyRegistered)
    else if WriteRow in faults || CommitWork in faults then Fail(t, Unavailable)
    else Outcome(t.(users := t.users[uid := row]), answer)
  }

  function Pending(cfg: Settings, row: UserRow, now: Time, token: Nonce): UserRow {
    row.(tokenHash := Some(Digest(token)), expiresAt := Some(now + cfg.verificationTtl), requestedAt := Some(now))
  }

  const NEW_USER := UserRow(None, None, None, None, true)

  predicate CoolingDown(cfg: Settings, user: UserRow, now: Time) {
    user.requestedAt.Some? && now < user.requestedAt.value + cfg.resendCooldown
  }

  function RequestEmailVerification(cfg: Settings, t: Tables, uid: UserId, now: Time, nonce: Nonce,
                                    faults: set<Statement>): Outcome
  {
    if ReadRow in faults then Fail(t, Unavailable)
    else if uid !in t.users || t.users[uid].IsEmailVerified() || CoolingDown(cfg, t.users[uid], now) then
      Outcome(t, Done)
    else if CommitWork in faults then Fail(t, Unavailable)
    else
      Outcome(t.(users := t.users[uid := Pending(cfg, t.users[uid], now, nonce)]),
              Verification(uid, nonce, now + cfg.verificationTtl))
  }

  ghost predicate Holds(users: map<UserId, UserRow>, uid: UserId, token: Nonce) {
    uid in users && users[uid].tokenHash == Some(Digest(token))
  }

  /** The row that the unique index on the token hash finds. */
  ghost function Holder(users: map<UserId, UserRow>, token: Nonce): (uid: Option<UserId>)
    ensures uid.Some? ==> Holds(users, uid.value, token)
    ensures uid.None? ==> forall u :: !Holds(users, u, token)
  {
    if exists u :: Holds(users, u, token) then var u :| Holds(users, u, token); Some(u) else None
  }

  /** The unique index on the token hash. */
  ghost predicate UniqueTokens(t: Tables) {
    forall u, v, token :: Holds(t.users, u, token) && Holds(t.users, v, token) ==> u == v
  }

  /** What the database enforces on committed tables. */
  ghost predicate Enforced(t: Tables) { UniqueTokens(t) && forall sid <- t.sessions :: t.sessions[sid].Constraints() }

  ghost function ConfirmEmail(t: Tables, token: Option<Nonce>, now: Time, faults: set<Statement>): Outcome {
    if token.None? then Fail(t, InvalidVerificationToken)
    else if ReadRow in faults then Fail(t, Unavailable)
    else
      var holder := Holder(t.users, token.value);
      if holder.None? || t.users[holder.value].IsEmailVerified() then Fail(t, InvalidVerificationToken)
      else
        var user := t.users[holder.value];
        if CommitWork in faults then Fail(t, Unavailable)
        else if user.expiresAt.None? || user.expiresAt.value <= now then
          Fail(t.(users := t.users[holder.value := user.(tokenHash := None, expiresAt := None)]),
               InvalidVerificationToken)
        else
          Outcome(t.(users := t.users[holder.value := UserRow(Some(now), None, None, None, user.isActive)]),
                  Verified(holder.value))
  }

  /** `authenticate`: None when the credentials are good. */
  function Refusal(t: Tables, uid: UserId, passwordOk: bool, faults: set<Statement>): Option<Error> {
    if ReadRow in faults then Some(Unavailable)
    else if uid !in t.users || !passwordOk then Some(InvalidCredentials)
    else if !t.users[uid].isActive then Some(InactiveUser)
    else if !t.users[uid].IsEmailVerified() then Some(EmailNotVerified)
    else None
  }

  function DeactivateAccount(t: Tables, uid: UserId, faults: set<Statement>): Outcome {
    if uid !in t.users || !t.users[uid].isActive then Outcome(t, Done)
    else if CommitWork in faults then Fail(t, Unavailable)
    else Outcome(t.(users := t.users[uid := t.users[uid].(isActive := false)]), Done)
  }

  // ----- sessions -----

  datatype Staged = Staged(pair: TokenPair, row: SessionRow)

  /** `stage_login_session`: the new pair and the row that is added to the unit of work. */
  function StageLoginSession(cfg: Settings, uid: UserId, clk: Clock, nonce: Nonce): Result<Staged> {
    var deadline := clk.now + cfg.absoluteTtl;
    match CreateTokenPair(cfg, UserSubject(uid), nonce, clk.now, Some(deadline), nonce)
    case Err(e) => Err(e)
    case Ok(pair) =>
      match DecodeRefreshToken(Signed(pair.refresh), clk.recheck)
      case Err(e) => Err(e)
      case Ok(payload) =>
        Ok(Staged(pair, SessionRow(uid, Digest(pair.refresh), None, clk.began, payload.exp, deadline, None,
                                   Some(clk.now), None)))
  }

  /** The whole-second expiry of a session opened now. */
  function NewExpiry(cfg: Settings, clk: Clock): Time {
    FloorSecond(clk.now + Min(cfg.RefreshLifetime(), cfg.absoluteTtl))
  }

  /** A new session lasts a whole second at least, and its rounded expiry lies after the decoding of the new token and
      after the database's `created_at`. */
  predicate LoginHasTime(cfg: Settings, clk: Clock) {
    cfg.absoluteTtl >= SECOND && clk.recheck < NewExpiry(cfg, clk) && clk.began < NewExpiry(cfg, clk)
  }

  /** Staging yields a row that the table accepts exactly when there is time for it; rounding down alone never breaks
      `created_at < expires_at <= absolute_expires_at`. */
  lemma StagedRowIsSound(cfg: Settings, uid: UserId, clk: Clock, nonce: Nonce)
    requires cfg.Valid() && clk.now <= clk.recheck
    ensures var staged := StageLoginSession(cfg, uid, clk, nonce);
            && (staged.Ok? && staged.value.row.Constraints() <==> LoginHasTime(cfg, clk))
            && (staged.Ok? ==>
                && staged.value.row.absoluteExpiresAt == clk.now + cfg.absoluteTtl
                && staged.value.row.expiresAt == staged.value.pair.refresh.exp <= staged.value.row.absoluteExpiresAt
                && (clk.began <= clk.now ==> staged.value.row.Constraints()))
  {
    PairWithinDeadline(cfg, UserSubject(uid), nonce, clk.now, clk.now + cfg.absoluteTtl, nonce);
    assert Min(clk.now + cfg.RefreshLifetime(), clk.now + cfg.absoluteTtl)
           == clk.now + Min(cfg.RefreshLifetime(), cfg.absoluteTtl);
  }

  /** Staging raises for want of a whole second, or because the new token has run out by the time it is decoded. */
  lemma StagingErrors(cfg: Settings, uid: UserId, clk: Clock, nonce: Nonce)
    requires cfg.Valid() && clk.now <= clk.recheck
    ensures var staged := StageLoginSession(cfg, uid, clk, nonce);
            && (staged == Err(ServerError) <==> cfg.absoluteTtl < SECOND)
            && (staged == Err(InvalidRefreshToken) <==> cfg.absoluteTtl >= SECOND && NewExpiry(cfg, clk) <= clk.recheck)
            && (staged.Ok? <==> cfg.absoluteTtl >= SECOND && clk.recheck < NewExpiry(cfg, clk))
            && (staged.Ok? ==>
                && staged.value.row.userId == uid && staged.value.pair.refresh.sid == nonce
                && (staged.value.row.Constraints() <==> clk.began < NewExpiry(cfg, clk)))
  {
    StagedRowIsSound(cfg, uid, clk, nonce);
    PairWithinDeadline(cfg, UserSubject(uid), nonce, clk.now, clk.now + cfg.absoluteTtl, nonce);
    assert Min(clk.now + cfg.RefreshLifetime(), clk.now + cfg.absoluteTtl)
           == clk.now + Min(cfg.RefreshLifetime(), cfg.absoluteTtl);
  }

  /** Flush and commit of a staged session: a violated constraint is an `IntegrityError`. */
  function CommitSession(t: Tables, sid: Nonce, staged: Staged, faults: set<Statement>): Outcome {
    if CommitWork in faults || sid in t.sessions || staged.row.userId !in t.users || !staged.row.Constraints() then
      Fail(t, Unavailable)
    else Outcome(t.(sessions := t.sessions[sid := staged.row]), Tokens(staged.pair))
  }

  function LoginSession(cfg: Settings, t: Tables, uid: UserId, passwordOk: bool, clk: Clock, nonce: Nonce,
                        faults: set<Statement>): Outcome
  {
    match Refusal(t, uid, passwordOk, faults)
    case Some(e) => Fail(t, e)
    case None =>
      match StageLoginSession(cfg, uid, clk, nonce)
      case Err(e) => Fail(t, e)
      case Ok(staged) => CommitSession(t, nonce, staged, faults)
  }

  predicate IsCurrent(row: SessionRow, token: RefreshToken) { row.tokenHash == Digest(token) }

  predicate IsRecoverablePrevious(cfg: Settings, row: SessionRow, token: RefreshToken, now: Time) {
    && row.previousTokenHash.Some? && row.rotatedAt.Some? && cfg.reuseGrace > 0
    && now <= row.rotatedAt.value + cfg.reuseGrace
    && row.previousTokenHash.value == Digest(token)
  }

  function RevokeSession(t: Tables, sid: Nonce, now: Time, answer: Response, faults: set<Statement>): Outcome
    requires sid in t.sessions
  {
    if CommitWork in faults then Fail(t, Unavailable)
    else Outcome(t.(sessions := t.sessions[sid := t.sessions[sid].Revoked(now)]), answer)
  }

  function RefreshSession(cfg: Settings, t: Tables, presented: Presented, clk: Clock, nonce: Nonce,
                          faults: set<Statement>): Outcome
  {
    match DecodeRefreshToken(presented, clk.arrive)
    case Err(e) => Fail(t, e)
    case Ok(token) =>
      if token.sub.OtherSubject? then Fail(t, InvalidRefreshToken)
      else if ReadRow in faults then Fail(t, Unavailable)
      else if token.sid !in t.sessions || t.sessions[token.sid].userId != token.sub.id
              || !t.sessions[token.sid].IsActive(clk.now) then Fail(t, InvalidRefreshToken)
      else
        var row := t.sessions[token.sid];
        if !IsCurrent(row, token) && !IsRecoverablePrevious(cfg, row, token, clk.now) then
          RevokeSession(t, token.sid, clk.now, Failed(RefreshTokenReuseDetected), faults)
        else RotateSession(cfg, t, token.sid, clk, nonce, faults)
  }

  /** The part of a refresh that follows the recognition of the token. */
  function RotateSession(cfg: Settings, t: Tables, sid: Nonce, clk: Clock, nonce: Nonce, faults: set<Statement>)
    : Outcome
    requires sid in t.sessions
  {
    var row := t.sessions[sid];
    if LoadUser in faults then Fail(t, Unavailable)
    else if row.userId !in t.users then
      RevokeSession(t, sid, clk.now, Failed(InvalidRefreshToken), faults)
    else if !t.users[row.userId].isActive then Fail(t, InactiveUser)
    else if !t.users[row.userId].IsEmailVerified() then Fail(t, EmailNotVerified)
    else
      match CreateTokenPair(cfg, UserSubject(row.userId), sid, clk.now, Some(row.absoluteExpiresAt), nonce)
      case Err(e) => Fail(t, e)
      case Ok(pair) =>
        match DecodeRefreshToken(Signed(pair.refresh), clk.recheck)
        case Err(e) => Fail(t, e)
        case Ok(payload) =>
          var rotated := row.Rotated(Digest(pair.refresh), payload.exp, clk.now);
          if CommitWork in faults || !rotated.Constraints() then Fail(t, Unavailable)
          else Outcome(t.(sessions := t.sessions[sid := rotated]), Tokens(pair))
  }

  function RevokeRefreshSession(t: Tables, presented: Presented, clk: Clock, faults: set<Statement>): Outcome {
    match DecodeRefreshToken(presented, clk.arrive)
    case Err(_) => Outcome(t, Done)
    case Ok(token) =>
      if token.sub.OtherSubject? then Outcome(t, Done)
      else if ReadRow in faults then Fail(t, Unavailable)
      else if token.sid !in t.sessions || t.sessions[token.sid].userId != token.sub.id
              || t.sessions[token.sid].revokedAt.Some? then Outcome(t, Done)
      else RevokeSession(t, token.sid, clk.now, Done, faults)
  }

  // ----- authorization codes -----

  function PruneCodeRows(codes: map<Digest<Nonce>, CodeRow>, at: Time): map<Digest<Nonce>, CodeRow> {
    map h | h in codes && !(codes[h].expiresAt <= at) :: codes[h]
  }

  function IssueAuthorizationCode(cfg: Settings, t: Tables, uid: UserId, passwordOk: bool,
                                  request: AuthorizationRequest, clk: Clock, nonce: Nonce, faults: set<Statement>)
    : Outcome
  {
    if request.clientId != cfg.clientId then Fail(t, InvalidClient)
    else if request.redirectUri !in cfg.redirectUris then Fail(t, InvalidRedirectUri)
    else if !request.blankScope then Fail(t, InvalidScope)
    else
      match Refusal(t, uid, passwordOk, faults)
      case Some(e) => Fail(t, e)
      case None =>
        var pruned := PruneCodeRows(t.codes, clk.now);
        var row := CodeRow(uid, request.clientId, request.redirectUri, request.challenge, clk.began,
                           clk.now + cfg.codeTtlSeconds * SECOND, None);
        if WriteRow in faults || CommitWork in faults || Digest(nonce) in pruned || !row.Constraints() then
          Fail(t, Unavailable)
        else Outcome(t.(codes := pruned[Digest(nonce) := row]), Code(nonce))
  }

  /** The WHERE clause of the consuming UPDATE. */
  predicate Redeemable(codes: map<Digest<Nonce>, CodeRow>, request: TokenRequest, now: Time) {
    var h := Digest(request.code);
    && h in codes && codes[h].clientId == request.clientId && codes[h].redirectUri == request.redirectUri
    && codes[h].challenge == request.challenge && codes[h].expiresAt > now && codes[h].consumedAt.None?
  }

  function ExchangeCode(cfg: Settings, t: Tables, request: TokenRequest, clk: Clock, nonce: Nonce,
                        faults: set<Statement>): Outcome
  {
    var h := Digest(request.code);
    if request.clientId != cfg.clientId then Fail(t, InvalidClient)
    else if WriteRow in faults then Fail(t, Unavailable)
    else if !Redeemable(t.codes, request, clk.now) then Fail(t, InvalidGrant)
    else
      var consumed := t.codes[h].(consumedAt := Some(clk.now));
      var uid := consumed.userId;
      if !consumed.Constraints() || LoadUser in faults then Fail(t, Unavailable)
      else if uid !in t.users || !t.users[uid].isActive then Fail(t, InvalidGrant)
      else
        match StageLoginSession(cfg, uid, clk, nonce)
        case Err(e) => Fail(t, e)
        case Ok(staged) =>
          var committed := CommitSession(t.(codes := t.codes[h := consumed]), nonce, staged, faults);
          if committed.response.Tokens? then committed else Fail(t, committed.response.error)
  }

  // ----- maintenance -----

  function PruneSessionRows(sessions: map<Nonce, SessionRow>, at: Time): map<Nonce, SessionRow> {
    map sid | sid in sessions && !(sessions[sid].expiresAt <= at) :: sessions[sid]
  }

  predicate ClearsAt(user: UserRow, at: Time) {
    user.verifiedAt.None? && user.tokenHash.Some? && user.expiresAt.Some? && user.expiresAt.value <= at
  }

  function ClearUserRows(users: map<UserId, UserRow>, at: Time): map<UserId, UserRow> {
    map u | u in users ::
      if ClearsAt(users[u], at) then users[u].(tokenHash := None, expiresAt := None, requestedAt := None) else users[u]
  }

  predicate IsMaintenance(a: Action) { a.PruneSessions? || a.PruneCodes? || a.ClearVerification? }

  function Maintain(t: Tables, job: Action, now: Time, faults: set<Statement>): Outcome
    requires IsMaintenance(job)
  {
    if WriteRow in faults || CommitWork in faults then Fail(t, Unavailable)
    else
      match job
      case PruneSessions => Outcome(t.(sessions := PruneSessionRows(t.sessions, now)), Done)
      case PruneCodes => Outcome(t.(codes := PruneCodeRows(t.codes, now)), Done)
      case _ => Outcome(t.(users := ClearUserRows(t.users, now)), Done)
  }

  // ----- runs -----

  ghost function Step(cfg: Settings, t: Tables, e: Event): Outcome {
    match e.action
    case Register(uid) =>
      RegisterUser(t, uid, Pending(cfg, NEW_USER, e.clk.now, e.nonce),
                   Verification(uid, e.nonce, e.clk.now + cfg.verificationTtl), e.faults)
    case RegisterTrusted(uid) =>
      RegisterUser(t, uid, NEW_USER.(verifiedAt := Some(e.clk.now)), Done, e.faults)
    case RequestVerification(uid) => RequestEmailVerification(cfg, t, uid, e.clk.now, e.nonce, e.faults)
    case VerifyEmail(token) => ConfirmEmail(t, token, e.clk.now, e.faults)
    case Login(uid, passwordOk) => LoginSession(cfg, t, uid, passwordOk, e.clk, e.nonce, e.faults)
    case IssueCode(uid, passwordOk, authorization) =>
      IssueAuthorizationCode(cfg, t, uid, passwordOk, authorization, e.clk, e.nonce, e.faults)
    case Exchange(exchange) => ExchangeCode(cfg, t, exchange, e.clk, e.nonce, e.faults)
    case Refresh(presented) => RefreshSession(cfg, t, presented, e.clk, e.nonce, e.faults)
    case Logout(presented) => RevokeRefreshSession(t, presented, e.clk, e.faults)
    case Deactivate(uid) => DeactivateAccount(t, uid, e.faults)
    case _ => Maintain(t, e.action, e.clk.now, e.faults)
  }

  /** Requests on sessions and codes read accounts but never write them. */
  lemma AccountsUntouched(cfg: Settings, t: Tables, e: Event)
    requires e.action.Login? || e.action.IssueCode? || e.action.Exchange? || e.action.Refresh? || e.action.Logout?
             || e.action.PruneSessions? || e.action.PruneCodes?
    ensures Step(cfg, t, e).tables.users == t.users
    ensures !Step(cfg, t, e).response.Verification? && !Step(cfg, t, e).response.Verified?
  {
  }

  lemma CodesUntouched(cfg: Settings, t: Tables, e: Event)
    requires !e.action.IssueCode? && !e.action.Exchange? && !e.action.PruneCodes?
    ensures Step(cfg, t, e).tables.codes == t.codes
  {
  }

  lemma SessionsUntouched(cfg: Settings, t: Tables, e: Event)
    requires !e.action.Login? && !e.action.Exchange? && !e.action.Refresh? && !e.action.Logout?
    requires !e.action.PruneSessions?
    ensures Step(cfg, t, e).tables.sessions == t.sessions && !Step(cfg, t, e).response.Tokens?
  {
  }

  datatype Entry = Entry(event: Event, response: Response)

  /** The committed tables after a run, and the whole history of requests and answers. */
  datatype History = History(tables: Tables, log: seq<Entry>)

  ghost function Run(cfg: Settings, events: seq<Event>): (h: History)
    ensures |h.log| == |events|
    ensures forall i :: 0 <= i < |events| ==> h.log[i].event == events[i]
  {
    if events == [] then History(EMPTY, [])
    else
      var before := Run(cfg, events[..|events| - 1]);
      var last := events[|events| - 1];
      var o := Step(cfg, before.tables, last);
      History(o.tables, before.log + [Entry(last, o.response)])
  }

  /** Random values never repeat. */
  ghost predicate FreshNonces(events: seq<Event>) {
    forall i, j :: 0 <= i < j < |events| ==> events[i].nonce != events[j].nonce
  }

  /** A well-formed run: valid settings and fresh randomness. Clock readings and failing statements are arbitrary. */
  ghost predicate IsRun(cfg: Settings, events: seq<Event>) { cfg.Valid() && FreshNonces(events) }

  ghost predicate OrderedReadings(c: Clock) { c.arrive <= c.now <= c.recheck }

  /** Requests are served one after another under a clock that never goes back. */
  ghost predicate MonotoneClock(events: seq<Event>) {
    && (forall i :: 0 <= i < |events| ==> OrderedReadings(events[i].clk))
    && (forall i, j :: 0 <= i < j < |events| ==> events[i].clk.recheck <= events[j].clk.arrive)
  }

  lemma RunSnoc(cfg: Settings, events: seq<Event>, e: Event)
    ensures var h := Run(cfg, events);
            var o := Step(cfg, h.tables, e);
            Run(cfg, events + [e]) == History(o.tables, h.log + [Entry(e, o.response)])
  {
    assert (events + [e])[..|events + [e]| - 1] == events;
  }

  /** A prefix of a run is a run, and its log is a prefix of the log. */
  lemma {:induction false} RunPrefix(cfg: Settings, events: seq<Event>, n: nat)
    requires n <= |events|
    ensures Run(cfg, events[..n]).log == Run(cfg, events).log[..n]
    decreases |events|
  {
    if n == |events| {
      assert events[..n] == events;
    } else {
      RunPrefix(cfg, events[..|events| - 1], n);
      assert events[..|events| - 1][..n] == events[..n];
    }
  }
}
