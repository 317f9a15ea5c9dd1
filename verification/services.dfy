/** The services as they run: a unit of work over the committed tables, records that are loaded, changed in place and
    flushed, and the rollback boundary of a request. Each method is proved against module `Credentials`. */
module Services {
  import opened Base
  import opened Security
  import opened Store
  import opened Credentials
  import Rotation
  import Ownership
  import Pruning

  /** The committed tables. */
  class Database {
    var tables: Tables

    constructor ()
      ensures tables == EMPTY
    {
      tables := EMPTY;
    }
  }

  /** `AsyncSession`: what a transaction sees and has written, and whether a pending write breaks a constraint. */
  class UnitOfWork {
    const db: Database
    var work: Tables
    var broken: bool

    constructor (db: Database)
      ensures this.db == db && Clean()
    {
      this.db := db;
      work := db.tables;
      broken := false;
    }

    ghost predicate Clean()
      reads this, db
    {
      work == db.tables && !broken
    }

    /** `session.add` of a new refresh session; the flush checks key, foreign key and check constraints. */
    method AddSession(sid: Nonce, row: SessionRow)
      modifies this
      ensures broken == (old(broken) || sid in old(work).sessions || row.userId !in old(work).users
                         || !row.Constraints())
      ensures work == old(work).(sessions := old(work).sessions[sid := row])
    {
      broken := broken || sid in work.sessions || row.userId !in work.users || !row.Constraints();
      work := work.(sessions := work.sessions[sid := row]);
    }

    /** The flush of a changed refresh session. */
    method FlushSession(record: RefreshSessionRecord)
      modifies this
      ensures broken == (old(broken) || !record.Row().Constraints())
      ensures work == old(work).(sessions := old(work).sessions[record.id := record.Row()])
    {
      var row := record.Row();
      broken := broken || !row.Constraints();
      work := work.(sessions := work.sessions[record.id := row]);
    }

    method PutUser(uid: UserId, row: UserRow)
      modifies this
      ensures broken == old(broken) && work == old(work).(users := old(work).users[uid := row])
    {
      work := work.(users := work.users[uid := row]);
    }

    method Commit(faults: set<Statement>) returns (ok: bool)
      modifies db
      ensures ok == (!broken && CommitWork !in faults)
      ensures db.tables == if ok then work else old(db.tables)
    {
      ok := !broken && CommitWork !in faults;
      if ok { db.tables := work; }
    }

    method Rollback()
      modifies this
      ensures Clean()
    {
      work := db.tables;
      broken := false;
    }
  }

  /** A loaded `RefreshSession`. */
  class RefreshSessionRecord {
    const id: Nonce
    const userId: UserId
    const createdAt: Time
    const absoluteExpiresAt: Time
    var tokenHash: Digest<RefreshToken>
    var previousTokenHash: Option<Digest<RefreshToken>>
    var expiresAt: Time
    var revokedAt: Option<Time>
    var lastUsedAt: Option<Time>
    var rotatedAt: Option<Time>

    constructor (id: Nonce, row: SessionRow)
      ensures this.id == id && Row() == row
    {
      this.id := id;
      userId := row.userId;
      createdAt := row.createdAt;
      absoluteExpiresAt := row.absoluteExpiresAt;
      tokenHash := row.tokenHash;
      previousTokenHash := row.previousTokenHash;
      expiresAt := row.expiresAt;
      revokedAt := row.revokedAt;
      lastUsedAt := row.lastUsedAt;
      rotatedAt := row.rotatedAt;
    }

    function Row(): SessionRow
      reads this
    {
      SessionRow(userId, tokenHash, previousTokenHash, createdAt, expiresAt, absoluteExpiresAt, revokedAt, lastUsedAt,
                 rotatedAt)
    }

    predicate IsActive(at: Time)
      reads this
      ensures IsActive(at) == Row().IsActive(at)
    {
      revokedAt == None && expiresAt > at && absoluteExpiresAt > at
    }

    method Revoke(at: Time)
      modifies this
      ensures Row() == old(Row()).Revoked(at)
      ensures !Row().IsActive(at)
    {
      if revokedAt == None { revokedAt := Some(at); }
    }

    /** Raises (answers false) on an inactive session and then changes nothing. */
    method Rotate(hash: Digest<RefreshToken>, expiry: Time, at: Time) returns (ok: bool)
      modifies this
      ensures ok == old(IsActive(at))
      ensures Row() == if ok then old(Row()).Rotated(hash, expiry, at) else old(Row())
    {
      ok := IsActive(at);
      if ok {
        previousTokenHash := Some(tokenHash);
        tokenHash := hash;
        expiresAt := Min(expiry, absoluteExpiresAt);
        lastUsedAt := Some(at);
        rotatedAt := Some(at);
      }
    }
  }

  class AuthService {
    const session: UnitOfWork
    const cfg: Settings

    constructor (session: UnitOfWork, cfg: Settings)
      ensures this.session == session && this.cfg == cfg
    {
      this.session := session;
      this.cfg := cfg;
    }

    method RegisterAccount(uid: UserId, row: UserRow, answer: Response, faults: set<Statement>) returns (r: Response)
      requires session.Clean()
      modifies session, session.db
      ensures Outcome(session.db.tables, r) == RegisterUser(old(session.db.tables), uid, row, answer, faults)
    {
      if ReadRow in faults { return Failed(Unavailable); }
      if uid in session.work.users { return Failed(EmailAlreadyRegistered); }
      if WriteRow in faults { return Failed(Unavailable); }
      session.PutUser(uid, row);
      var ok := session.Commit(faults);
      r := if ok then answer else Failed(Unavailable);
    }

    method RegisterPendingVerification(uid: UserId, now: Time, token: Nonce, faults: set<Statement>)
      returns (r: Response)
      requires session.Clean()
      modifies session, session.db
      ensures Outcome(session.db.tables, r)
              == RegisterUser(old(session.db.tables), uid, Pending(cfg, NEW_USER, now, token),
                              Verification(uid, token, now + cfg.verificationTtl), faults)
    {
      var expiresAt := now + cfg.verificationTtl;
      var row := UserRow(None, Some(Digest(token)), Some(expiresAt), Some(now), true);
      r := RegisterAccount(uid, row, Verification(uid, token, expiresAt), faults);
    }

    method RequestVerification(uid: UserId, now: Time, token: Nonce, faults: set<Statement>) returns (r: Response)
      requires session.Clean()
      modifies session, session.db
      ensures Outcome(session.db.tables, r)
              == RequestEmailVerification(cfg, old(session.db.tables), uid, now, token, faults)
    {
      if ReadRow in faults { return Failed(Unavailable); }
      if uid !in session.work.users { return Done; }
      var user := session.work.users[uid];
      if user.IsEmailVerified() { return Done; }
      if user.requestedAt.Some? && now < user.requestedAt.value + cfg.resendCooldown { return Done; }
      var expiresAt := now + cfg.verificationTtl;
      user := user.(tokenHash := Some(Digest(token)));
      user := user.(expiresAt := Some(expiresAt));
      user := user.(requestedAt := Some(now));
      session.PutUser(uid, user);
      var ok := session.Commit(faults);
      r := if ok then Verification(uid, token, expiresAt) else Failed(Unavailable);
    }

    method VerifyEmail(token: Option<Nonce>, now: Time, faults: set<Statement>) returns (r: Response)
      requires session.Clean() && Enforced(session.db.tables)
      modifies session, session.db
      ensures Outcome(session.db.tables, r) == ConfirmEmail(old(session.db.tables), token, now, faults)
    {
      if token.None? { return Failed(InvalidVerificationToken); }
      if ReadRow in faults { return Failed(Unavailable); }
      var users := session.work.users;
      var uid: UserId;
      if u :| u in users && users[u].tokenHash == Some(Digest(token.value)) {
        uid := u;
      } else {
        assert forall u :: !Holds(users, u, token.value);
        return Failed(InvalidVerificationToken);
      }
      assert Holds(users, uid, token.value) && Holder(users, token.value) == Some(uid);
      var user := users[uid];
      if user.IsEmailVerified() { return Failed(InvalidVerificationToken); }
      if user.expiresAt.None? || user.expiresAt.value <= now {
        session.PutUser(uid, user.(tokenHash := None, expiresAt := None));
        var ok := session.Commit(faults);
        return Failed(if ok then InvalidVerificationToken else Unavailable);
      }
      user := user.(verifiedAt := Some(now));
      user := user.(tokenHash := None, expiresAt := None, requestedAt := None);
      session.PutUser(uid, user);
      var ok := session.Commit(faults);
      r := if ok then Verified(uid) else Failed(Unavailable);
    }

    method Authenticate(uid: UserId, passwordOk: bool, faults: set<Statement>) returns (refusal: Option<Error>)
      ensures refusal == Refusal(session.work, uid, passwordOk, faults)
      ensures !passwordOk ==> refusal in {Some(Unavailable), Some(InvalidCredentials)}
      ensures refusal.None? ==> passwordOk && Ownership.VerifiedUser(session.work, uid)
    {
      if ReadRow in faults { return Some(Unavailable); }
      if uid !in session.work.users || !passwordOk { return Some(InvalidCredentials); }
      if !session.work.users[uid].isActive { return Some(InactiveUser); }
      if !session.work.users[uid].IsEmailVerified() { return Some(EmailNotVerified); }
      refusal := None;
    }

    /** Adds the row without committing: the caller owns the transaction. */
    method StageSession(uid: UserId, clk: Clock, nonce: Nonce) returns (pair: Result<TokenPair>)
      modifies session
      ensures pair == (match StageLoginSession(cfg, uid, clk, nonce)
                       case Ok(staged) => Ok(staged.pair)
                       case Err(e) => Err(e))
      ensures pair.Err? ==> session.work == old(session.work) && session.broken == old(session.broken)
      ensures pair.Ok? ==>
                var row := StageLoginSession(cfg, uid, clk, nonce).value.row;
                && session.work == old(session.work).(sessions := old(session.work).sessions[nonce := row])
                && session.broken == (old(session.broken) || nonce in old(session.work).sessions
                                      || uid !in old(session.work).users || !row.Constraints())
    {
      var absoluteExpiresAt := clk.now + cfg.absoluteTtl;
      pair := CreateTokenPair(cfg, UserSubject(uid), nonce, clk.now, Some(absoluteExpiresAt), nonce);
      if pair.Err? { return; }
      var payload := DecodeRefreshToken(Signed(pair.value.refresh), clk.recheck);
      if payload.Err? { return Err(payload.error); }
      session.AddSession(nonce, SessionRow(uid, Digest(pair.value.refresh), None, clk.began, payload.value.exp,
                                           absoluteExpiresAt, None, Some(clk.now), None));
    }

    method CreateLoginSession(uid: UserId, passwordOk: bool, clk: Clock, nonce: Nonce, faults: set<Statement>)
      returns (r: Response)
      requires session.Clean()
      modifies session, session.db
      ensures Outcome(session.db.tables, r)
              == LoginSession(cfg, old(session.db.tables), uid, passwordOk, clk, nonce, faults)
    {
      var refusal := Authenticate(uid, passwordOk, faults);
      if refusal.Some? { return Failed(refusal.value); }
      var pair := StageSession(uid, clk, nonce);
      if pair.Err? { return Failed(pair.error); }
      var ok := session.Commit(faults);
      r := if ok then Tokens(pair.value) else Failed(Unavailable);
    }

    method RefreshLoginSession(presented: Presented, clk: Clock, nonce: Nonce, faults: set<Statement>)
      returns (r: Response)
      requires session.Clean() && Enforced(session.db.tables)
      modifies session, session.db
      ensures Outcome(session.db.tables, r)
              == RefreshSession(cfg, old(session.db.tables), presented, clk, nonce, faults)
    {
      var payload := DecodeRefreshToken(presented, clk.arrive);
      if payload.Err? { return Failed(payload.error); }
      var token := payload.value;
      if token.sub.OtherSubject? { return Failed(InvalidRefreshToken); }
      if ReadRow in faults { return Failed(Unavailable); }
      if token.sid !in session.work.sessions { return Failed(InvalidRefreshToken); }
      var record := new RefreshSessionRecord(token.sid, session.work.sessions[token.sid]);
      if record.userId != token.sub.id || !record.IsActive(clk.now) { return Failed(InvalidRefreshToken); }
      var isCurrent := record.tokenHash == Digest(token);
      var isRecoverable := false;
      if !isCurrent { isRecoverable := IsRecoverablePreviousToken(record, token, clk.now); }
      if !isCurrent && !isRecoverable {
        r := RevokeAndRaise(record, clk.now, RefreshTokenReuseDetected, faults);
        return;
      }
      if LoadUser in faults { return Failed(Unavailable); }
      if record.userId !in session.work.users {
        r := RevokeAndRaise(record, clk.now, InvalidRefreshToken, faults);
        return;
      }
      var user := session.work.users[record.userId];
      if !user.isActive { return Failed(InactiveUser); }
      if !user.IsEmailVerified() { return Failed(EmailNotVerified); }
      var deadline := Some(record.absoluteExpiresAt);
      var pair := CreateTokenPair(cfg, UserSubject(record.userId), record.id, clk.now, deadline, nonce);
      if pair.Err? { return Failed(pair.error); }
      var rotated := DecodeRefreshToken(Signed(pair.value.refresh), clk.recheck);
      if rotated.Err? { return Failed(rotated.error); }
      var ok := record.Rotate(Digest(pair.value.refresh), rotated.value.exp, clk.now);
      assert ok;
      session.FlushSession(record);
      ok := session.Commit(faults);
      r := if ok then Tokens(pair.value) else Failed(Unavailable);
    }

    method IsRecoverablePreviousToken(record: RefreshSessionRecord, token: RefreshToken, now: Time) returns (b: bool)
      ensures b == IsRecoverablePrevious(cfg, record.Row(), token, now)
    {
      if record.previousTokenHash == None || record.rotatedAt == None || cfg.reuseGrace <= 0 { return false; }
      if now > record.rotatedAt.value + cfg.reuseGrace { return false; }
      b := record.previousTokenHash.value == Digest(token);
    }

    /** The revocation is committed before the exception is raised, so the rollback that follows cannot undo it. */
    method RevokeAndRaise(record: RefreshSessionRecord, now: Time, error: Error, faults: set<Statement>)
      returns (r: Response)
      requires session.Clean() && record.id in session.work.sessions && record.Row() == session.work.sessions[record.id]
      requires record.Row().Constraints()
      modifies record, session, session.db
      ensures Outcome(session.db.tables, r)
              == RevokeSession(old(session.db.tables), record.id, now, Failed(error), faults)
    {
      record.Revoke(now);
      session.FlushSession(record);
      var ok := session.Commit(faults);
      r := Failed(if ok then error else Unavailable);
    }

    /** Idempotent: everything but a live, known session is silently accepted. */
    method RevokeSessionOf(presented: Presented, clk: Clock, faults: set<Statement>) returns (r: Response)
      requires session.Clean() && Enforced(session.db.tables)
      modifies session, session.db
      ensures Outcome(session.db.tables, r) == RevokeRefreshSession(old(session.db.tables), presented, clk, faults)
    {
      var payload := DecodeRefreshToken(presented, clk.arrive);
      if payload.Err? || payload.value.sub.OtherSubject? { return Done; }
      if ReadRow in faults { return Failed(Unavailable); }
      var token := payload.value;
      if token.sid !in session.work.sessions || session.work.sessions[token.sid].userId != token.sub.id { return Done; }
      var record := new RefreshSessionRecord(token.sid, session.work.sessions[token.sid]);
      if record.revokedAt != None { return Done; }
      record.Revoke(clk.now);
      session.FlushSession(record);
      var ok := session.Commit(faults);
      r := if ok then Done else Failed(Unavailable);
    }

    /** `deactivate_account` of the user service. */
    method Deactivate(uid: UserId, faults: set<Statement>) returns (r: Response)
      requires session.Clean()
      modifies session, session.db
      ensures Outcome(session.db.tables, r) == DeactivateAccount(old(session.db.tables), uid, faults)
    {
      if uid !in session.work.users || !session.work.users[uid].isActive { return Done; }
      session.PutUser(uid, session.work.users[uid].(isActive := false));
      var ok := session.Commit(faults);
      r := if ok then Done else Failed(Unavailable);
    }
  }

  class OAuthService {
    const session: UnitOfWork
    const auth: AuthService

    constructor (session: UnitOfWork, auth: AuthService)
      requires auth.session == session
      ensures this.session == session && this.auth == auth
    {
      this.session := session;
      this.auth := auth;
    }

    method IssueCode(uid: UserId, passwordOk: bool, request: AuthorizationRequest, clk: Clock, nonce: Nonce,
                     faults: set<Statement>) returns (r: Response)
      requires auth.session == session && session.Clean()
      modifies session, session.db
      ensures Outcome(session.db.tables, r)
              == IssueAuthorizationCode(auth.cfg, old(session.db.tables), uid, passwordOk, request, clk, nonce, faults)
    {
      if request.clientId != auth.cfg.clientId { return Failed(InvalidClient); }
      if request.redirectUri !in auth.cfg.redirectUris { return Failed(InvalidRedirectUri); }
      if !request.blankScope { return Failed(InvalidScope); }
      var refusal := auth.Authenticate(uid, passwordOk, faults);
      if refusal.Some? { return Failed(refusal.value); }
      if WriteRow in faults { return Failed(Unavailable); }
      PruneExpiredCodes(session, clk.now);
      var expiresAt := clk.now + auth.cfg.codeTtlSeconds * SECOND;
      CreateCode(session, nonce, CodeRow(uid, request.clientId, request.redirectUri, request.challenge, clk.began,
                                         expiresAt, None));
      var ok := session.Commit(faults);
      r := if ok then Code(nonce) else Failed(Unavailable);
    }

    method ExchangeAuthorizationCode(request: TokenRequest, clk: Clock, nonce: Nonce, faults: set<Statement>)
      returns (r: Response)
      requires auth.session == session && session.Clean()
      modifies session, session.db
      ensures Outcome(session.db.tables, r)
              == ExchangeCode(auth.cfg, old(session.db.tables), request, clk, nonce, faults)
    {
      if request.clientId != auth.cfg.clientId { return Failed(InvalidClient); }
      if WriteRow in faults { return Failed(Unavailable); }
      var uid := ConsumeCode(session, request, clk.now);
      if uid.None? { return Failed(InvalidGrant); }
      if session.broken || LoadUser in faults { return Failed(Unavailable); }
      if uid.value !in session.work.users || !session.work.users[uid.value].isActive { return Failed(InvalidGrant); }
      var pair := auth.StageSession(uid.value, clk, nonce);
      if pair.Err? { return Failed(pair.error); }
      var ok := session.Commit(faults);
      r := if ok then Tokens(pair.value) else Failed(Unavailable);
    }
  }

  // ----- the code repository -----

  method CreateCode(session: UnitOfWork, code: Nonce, row: CodeRow)
    modifies session
    ensures session.broken == (old(session.broken) || Digest(code) in old(session.work).codes || !row.Constraints())
    ensures session.work == old(session.work).(codes := old(session.work).codes[Digest(code) := row])
  {
    session.broken := session.broken || Digest(code) in session.work.codes || !row.Constraints();
    session.work := session.work.(codes := session.work.codes[Digest(code) := row]);
  }

  method PruneExpiredCodes(session: UnitOfWork, expiredAt: Time)
    modifies session
    ensures session.broken == old(session.broken)
    ensures session.work == old(session.work).(codes := PruneCodeRows(old(session.work).codes, expiredAt))
  {
    var codes := session.work.codes;
    session.work := session.work.(codes := map h | h in codes && codes[h].expiresAt > expiredAt :: codes[h]);
  }

  /** One conditional UPDATE ... RETURNING. */
  method ConsumeCode(session: UnitOfWork, request: TokenRequest, consumedAt: Time) returns (uid: Option<UserId>)
    modifies session
    ensures uid.Some? <==> Redeemable(old(session.work).codes, request, consumedAt)
    ensures uid.None? ==> session.work == old(session.work) && session.broken == old(session.broken)
    ensures uid.Some? ==>
              var consumed := old(session.work).codes[Digest(request.code)].(consumedAt := Some(consumedAt));
              && uid.value == consumed.userId
              && session.work == old(session.work).(codes := old(session.work).codes[Digest(request.code) := consumed])
              && session.broken == (old(session.broken) || !consumed.Constraints())
  {
    var h := Digest(request.code);
    if h !in session.work.codes { return None; }
    var row := session.work.codes[h];
    if row.clientId != request.clientId || row.redirectUri != request.redirectUri || row.challenge != request.challenge
       || row.expiresAt <= consumedAt || row.consumedAt != None { return None; }
    row := row.(consumedAt := Some(consumedAt));
    session.broken := session.broken || !row.Constraints();
    session.work := session.work.(codes := session.work.codes[h := row]);
    uid := Some(row.userId);
  }

  // ----- maintenance -----

  /** One job: a transaction with one set-based statement. */
  method RunJob(session: UnitOfWork, job: Action, now: Time, faults: set<Statement>) returns (r: Response)
    requires session.Clean() && IsMaintenance(job)
    modifies session, session.db
    ensures Outcome(session.db.tables, r) == Maintain(old(session.db.tables), job, now, faults)
  {
    if WriteRow in faults { return Failed(Unavailable); }
    if job.PruneSessions? {
      session.work := session.work.(sessions := map sid | sid in session.work.sessions
                                                          && session.work.sessions[sid].expiresAt > now
                                                :: session.work.sessions[sid]);
    } else if job.PruneCodes? {
      PruneExpiredCodes(session, now);
    } else {
      var users := session.work.users;
      session.work := session.work.(users := map u | u in users :: ClearedRow(users[u], now));
      assert session.work.users == ClearUserRows(users, now);
    }
    var ok := session.Commit(faults);
    r := if ok then Done else Failed(Unavailable);
  }

  /** One row under the clearing UPDATE. */
  function ClearedRow(user: UserRow, expiredAt: Time): (row: UserRow)
    ensures row.(tokenHash := user.tokenHash, expiresAt := user.expiresAt, requestedAt := user.requestedAt) == user
    ensures if ClearsAt(user, expiredAt) then row.tokenHash.None? && row.expiresAt.None? && row.requestedAt.None?
            else row == user
  {
    if user.verifiedAt != None || user.tokenHash == None || user.expiresAt == None || user.expiresAt.value > expiredAt
    then user
    else UserRow(user.verifiedAt, None, None, None, user.isActive)
  }

  // ----- a request -----

  /** `get_session`: a request runs in its own unit of work, and one that raises is rolled back. What was committed
      before the exception stays. */
  method Serve(db: Database, cfg: Settings, e: Event) returns (r: Response, session: UnitOfWork)
    requires Enforced(db.tables)
    modifies db
    ensures Outcome(db.tables, r) == Step(cfg, old(db.tables), e)
    ensures session.db == db && (r.Failed? ==> session.Clean())
  {
    session := new UnitOfWork(db);
    var auth := new AuthService(session, cfg);
    var oauth := new OAuthService(session, auth);
    match e.action {
      case Register(uid) => r := auth.RegisterPendingVerification(uid, e.clk.now, e.nonce, e.faults);
      case RegisterTrusted(uid) =>
        r := auth.RegisterAccount(uid, NEW_USER.(verifiedAt := Some(e.clk.now)), Done, e.faults);
      case RequestVerification(uid) => r := auth.RequestVerification(uid, e.clk.now, e.nonce, e.faults);
      case VerifyEmail(token) => r := auth.VerifyEmail(token, e.clk.now, e.faults);
      case Login(uid, passwordOk) => r := auth.CreateLoginSession(uid, passwordOk, e.clk, e.nonce, e.faults);
      case IssueCode(uid, passwordOk, request) =>
        r := oauth.IssueCode(uid, passwordOk, request, e.clk, e.nonce, e.faults);
      case Exchange(request) => r := oauth.ExchangeAuthorizationCode(request, e.clk, e.nonce, e.faults);
      case Refresh(presented) => r := auth.RefreshLoginSession(presented, e.clk, e.nonce, e.faults);
      case Logout(presented) => r := auth.RevokeSessionOf(presented, e.clk, e.faults);
      case Deactivate(uid) => r := auth.Deactivate(uid, e.faults);
      case _ => r := RunJob(session, e.action, e.clk.now, e.faults);
    }
    if r.Failed? { session.Rollback(); }
  }

  /** The premise of `Serve` holds in every reachable state, so each request of a run is served as its step. */
  lemma EnforcedInEveryRun(cfg: Settings, events: seq<Event>)
    requires IsRun(cfg, events)
    ensures Enforced(Run(cfg, events).tables)
  {
    var t := Run(cfg, events).tables;
    Pruning.HashesAreUnique(cfg, events);
    forall sid | sid in t.sessions ensures t.sessions[sid].Constraints() {
      Rotation.RotationChain(cfg, events, sid);
    }
  }
}
