/** Which answer each request gets, at every reachable state: every error, and when. What a request depends on is read
    off the history, not off the rows. */
module Answers {
  import opened Base
  import opened Security
  import opened Store
  import opened Credentials
  import opened EmailVerification
  import opened Ownership
  import opened Rotation
  import opened Accounts
  import opened Authorization
  import opened Redemption

  // ----- accounts -----

  /** A registration is answered exactly for an address that was never registered, and then adds this one row; a known
      address is refused as such; every failure leaves the tables as they were. */
  lemma RegistrationAnswers(cfg: Settings, events: seq<Event>, e: Event)
    requires e.action.Register? || e.action.RegisterTrusted?
    ensures var h := Run(cfg, events);
            var o := Step(cfg, h.tables, e);
            var n := Registrations(h.log, e.action.uid);
            var end := e.clk.now + cfg.verificationTtl;
            var answer := if e.action.Register? then Verification(e.action.uid, e.nonce, end) else Done;
            var row := if e.action.Register?
                       then UserRow(None, Some(Digest(e.nonce)), Some(end), Some(e.clk.now), true)
                       else UserRow(Some(e.clk.now), None, None, None, true);
            && (o.response == answer <==> n == 0 && e.faults !! {ReadRow, WriteRow, CommitWork})
            && (o.response == Failed(EmailAlreadyRegistered) <==> n == 1 && ReadRow !in e.faults)
            && (o.response == answer ==> o.tables == h.tables.(users := h.tables.users[e.action.uid := row]))
            && (o.response != answer ==> o.response.Failed? && o.tables == h.tables)
            && (o.response == Failed(Unavailable) <==>
                ReadRow in e.faults || (n == 0 && !(e.faults !! {WriteRow, CommitWork})))
  {
    RegisteredOnce(cfg, events, e.action.uid);
  }

  /** Right password, registered once, confirmed or trusted, never deactivated. */
  ghost predicate Admitted(log: seq<Entry>, uid: UserId, passwordOk: bool) {
    passwordOk && Registrations(log, uid) == 1 && VerifiedInPast(log, uid) && !DeactivatedInPast(log, uid)
  }

  /** Bad credentials come first, then a deactivated account, then one that was never confirmed. */
  ghost function RefusalOf(log: seq<Entry>, uid: UserId, passwordOk: bool): Option<Error> {
    if Admitted(log, uid, passwordOk) then None
    else if !passwordOk || Registrations(log, uid) == 0 then Some(InvalidCredentials)
    else if DeactivatedInPast(log, uid) then Some(InactiveUser)
    else Some(EmailNotVerified)
  }

  lemma RefusalIs(cfg: Settings, events: seq<Event>, uid: UserId, passwordOk: bool, faults: set<Statement>)
    ensures var h := Run(cfg, events);
            Refusal(h.tables, uid, passwordOk, faults)
            == if ReadRow in faults then Some(Unavailable) else RefusalOf(h.log, uid, passwordOk)
  {
    AccountHistory(cfg, events, uid);
    RegisteredOnce(cfg, events, uid);
  }

  lemma LoginByRow(cfg: Settings, t: Tables, e: Event)
    requires cfg.Valid() && e.action.Login? && OrderedReadings(e.clk) && e.nonce !in t.sessions
    ensures var r := Step(cfg, t, e).response;
            var refusal := Refusal(t, e.action.uid, e.action.passwordOk, e.faults);
            if refusal.Some? then r == Failed(refusal.value)
            else if cfg.absoluteTtl < SECOND then r == Failed(ServerError)
            else if NewExpiry(cfg, e.clk) <= e.clk.recheck then r == Failed(InvalidRefreshToken)
            else if NewExpiry(cfg, e.clk) <= e.clk.began || CommitWork in e.faults then r == Failed(Unavailable)
            else r.Tokens?
  {
    StagingErrors(cfg, e.action.uid, e.clk, e.nonce);
  }

  lemma NonceNamesNoSession(cfg: Settings, events: seq<Event>, nonce: Nonce)
    requires IsRun(cfg, events) && forall x <- events :: x.nonce != nonce
    ensures nonce !in Run(cfg, events).tables.sessions
  {
    RotationChain(cfg, events, nonce);
  }

  /** Which error a login gets; with `LoginOpensSession`, which answer. */
  lemma LoginAnswers(cfg: Settings, events: seq<Event>, e: Event)
    requires IsRun(cfg, events) && e.action.Login? && OrderedReadings(e.clk) && forall x <- events :: x.nonce != e.nonce
    ensures var h := Run(cfg, events);
            var r, refusal := Step(cfg, h.tables, e).response, RefusalOf(h.log, e.action.uid, e.action.passwordOk);
            if ReadRow in e.faults then r == Failed(Unavailable)
            else if refusal.Some? then r == Failed(refusal.value)
            else if cfg.absoluteTtl < SECOND then r == Failed(ServerError)
            else if NewExpiry(cfg, e.clk) <= e.clk.recheck then r == Failed(InvalidRefreshToken)
            else if NewExpiry(cfg, e.clk) <= e.clk.began || CommitWork in e.faults then r == Failed(Unavailable)
            else r.Tokens?
  {
    RefusalIs(cfg, events, e.action.uid, e.action.passwordOk, e.faults);
    NonceNamesNoSession(cfg, events, e.nonce);
    LoginByRow(cfg, Run(cfg, events).tables, e);
  }

  /** Which error the issuing of a code gets: the request is checked first, then the credentials. */
  lemma IssueAnswers(cfg: Settings, events: seq<Event>, e: Event)
    requires IsRun(cfg, events) && e.action.IssueCode? && forall x <- events :: x.nonce != e.nonce
    ensures var h := Run(cfg, events);
            var r, refusal := Step(cfg, h.tables, e).response, RefusalOf(h.log, e.action.uid, e.action.passwordOk);
            if e.action.authorization.clientId != cfg.clientId then r == Failed(InvalidClient)
            else if e.action.authorization.redirectUri !in cfg.redirectUris then r == Failed(InvalidRedirectUri)
            else if !e.action.authorization.blankScope then r == Failed(InvalidScope)
            else if ReadRow in e.faults then r == Failed(Unavailable)
            else if refusal.Some? then r == Failed(refusal.value)
            else r == Code(e.nonce) || r == Failed(Unavailable)
  {
    RefusalIs(cfg, events, e.action.uid, e.action.passwordOk, e.faults);
  }

  /** A deactivation fails only for the database and only where there is something to change. */
  lemma DeactivationAnswers(cfg: Settings, events: seq<Event>, e: Event)
    requires e.action.Deactivate?
    ensures var h, uid := Run(cfg, events), e.action.uid;
            var o := Step(cfg, h.tables, e);
            var active := Registrations(h.log, uid) == 1 && !DeactivatedInPast(h.log, uid);
            && o.response == (if active && CommitWork in e.faults then Failed(Unavailable) else Done)
            && (if active && CommitWork !in e.faults
                then uid in h.tables.users
                     && o.tables == h.tables.(users := h.tables.users[uid := h.tables.users[uid].(isActive := false)])
                else o.tables == h.tables)
  {
    AccountHistory(cfg, events, e.action.uid);
    RegisteredOnce(cfg, events, e.action.uid);
  }

  // ----- e-mail verification -----

  /** A resend yields a token that is due, raises for the database only, and otherwise silently does nothing. */
  lemma ResendAnswers(cfg: Settings, events: seq<Event>, e: Event)
    requires e.action.RequestVerification?
    ensures var h, uid := Run(cfg, events), e.action.uid;
            var r, g := Step(cfg, h.tables, e).response, GrantsTo(h.log, uid);
            var due := ResendDue(cfg, h.tables, g, e.(faults := {}), RequestErased(cfg, events, uid));
            if ReadRow in e.faults || (due && CommitWork in e.faults) then r == Failed(Unavailable)
            else if due then r == Verification(uid, e.nonce, e.clk.now + cfg.verificationTtl)
            else r == Done
  {
    var h, uid := Run(cfg, events), e.action.uid;
    PendingRowShape(cfg, events, uid);
    RequestErasedMeans(cfg, events, uid);
    ResendByRow(cfg, h.tables, GrantsTo(h.log, uid), Confirmations(h.log, uid), e, RequestErased(cfg, events, uid));
  }

  lemma ResendByRow(cfg: Settings, t: Tables, g: seq<Grant>, n: nat, e: Event, erased: bool)
    requires e.action.RequestVerification? && AccountOk(cfg, RowOf(t.users, e.action.uid), g, n)
    requires var uid := e.action.uid;
             uid in t.users && !t.users[uid].IsEmailVerified() ==> (NoRequest(t, uid) <==> erased)
    ensures var r := Step(cfg, t, e).response;
            var due := ResendDue(cfg, t, g, e.(faults := {}), erased);
            if ReadRow in e.faults || (due && CommitWork in e.faults) then r == Failed(Unavailable)
            else if due then r == Verification(e.action.uid, e.nonce, e.clk.now + cfg.verificationTtl)
            else r == Done
  {
    ResendIff(cfg, t, g, n, e, erased);
  }

  /** The account that the token was last issued to, as long as it is neither confirmed nor cleared. */
  ghost predicate Awaits(h: History, uid: UserId, token: Nonce) {
    && Holds(h.tables.users, uid, token) && !h.tables.users[uid].IsEmailVerified()
    && var g := GrantsTo(h.log, uid); g != [] && g[|g| - 1].token == token
  }

  /** A confirmation of an account's own token: an expired token is cleared although the request fails. */
  ghost function Confirmation(t: Tables, uid: UserId, expiry: Time, now: Time, faults: set<Statement>): Outcome
    requires uid in t.users
  {
    if !(faults !! {ReadRow, CommitWork}) then Fail(t, Unavailable)
    else if now < expiry then
      Outcome(t.(users := t.users[uid := UserRow(Some(now), None, None, None, t.users[uid].isActive)]), Verified(uid))
    else
      Fail(t.(users := t.users[uid := t.users[uid].(tokenHash := None, expiresAt := None)]), InvalidVerificationToken)
  }

  lemma HeldTokenAnswers(t: Tables, token: Nonce, uid: UserId, now: Time, faults: set<Statement>)
    requires Holder(t.users, token) == Some(uid) && !t.users[uid].IsEmailVerified() && t.users[uid].expiresAt.Some?
    ensures ConfirmEmail(t, Some(token), now, faults) == Confirmation(t, uid, t.users[uid].expiresAt.value, now, faults)
  {
  }

  lemma AwaitedIsHeld(cfg: Settings, events: seq<Event>, uid: UserId, token: Nonce)
    requires IsRun(cfg, events) && Awaits(Run(cfg, events), uid, token)
    ensures var h := Run(cfg, events);
            var g := GrantsTo(h.log, uid);
            && Holder(h.tables.users, token) == Some(uid)
            && h.tables.users[uid].expiresAt == Some(g[|g| - 1].at + cfg.verificationTtl)
  {
    PendingRowShape(cfg, events, uid);
    TokensNameTheirAccount(cfg, events, uid, Holder(Run(cfg, events).tables.users, token).value, token);
  }

  /** A token that an account awaits: a failing statement is answered `Unavailable` and changes nothing, before the
      token's expiry the account is verified, and afterwards the token is cleared. */
  lemma ConfirmationAnswers(cfg: Settings, events: seq<Event>, e: Event, uid: UserId)
    requires IsRun(cfg, events) && e.action.VerifyEmail? && e.action.token.Some?
    requires Awaits(Run(cfg, events), uid, e.action.token.value)
    ensures var h := Run(cfg, events);
            var g := GrantsTo(h.log, uid);
            Step(cfg, h.tables, e)
            == Confirmation(h.tables, uid, g[|g| - 1].at + cfg.verificationTtl, e.clk.now, e.faults)
  {
    AwaitedIsHeld(cfg, events, uid, e.action.token.value);
    HeldTokenAnswers(Run(cfg, events).tables, e.action.token.value, uid, e.clk.now, e.faults);
  }

  lemma HeldTokenAwaits(cfg: Settings, events: seq<Event>, uid: UserId, token: Nonce)
    requires Holds(Run(cfg, events).tables.users, uid, token)
    ensures Awaits(Run(cfg, events), uid, token)
  {
    PendingRowShape(cfg, events, uid);
  }

  lemma UnheldTokenRefused(t: Tables, token: Nonce, now: Time, faults: set<Statement>)
    requires forall uid :: !Holds(t.users, uid, token)
    ensures ConfirmEmail(t, Some(token), now, faults)
            == Fail(t, if ReadRow in faults then Unavailable else InvalidVerificationToken)
  {
  }

  /** A blank token, or one that no account awaits, is refused and changes nothing. */
  lemma UnknownTokenRefused(cfg: Settings, events: seq<Event>, e: Event)
    requires e.action.VerifyEmail?
    requires e.action.token.Some? ==> forall uid :: !Awaits(Run(cfg, events), uid, e.action.token.value)
    ensures var t := Run(cfg, events).tables;
            Step(cfg, t, e) == Fail(t, if e.action.token.Some? && ReadRow in e.faults then Unavailable
                                       else InvalidVerificationToken)
  {
    if e.action.token.Some? {
      var h, token := Run(cfg, events), e.action.token.value;
      forall uid ensures !Holds(h.tables.users, uid, token) {
        if Holds(h.tables.users, uid, token) { HeldTokenAwaits(cfg, events, uid, token); }
      }
      UnheldTokenRefused(h.tables, token, e.clk.now, e.faults);
    }
  }

  // ----- refresh -----

  /** The token decodes and names an active session of its subject. */
  ghost predicate Recognised(t: Tables, e: Event) {
    && e.action.Refresh? && DecodeRefreshToken(e.action.presented, e.clk.arrive).Ok?
    && var token := e.action.presented.token;
       token.sid in t.sessions && token.sub == UserSubject(t.sessions[token.sid].userId)
       && t.sessions[token.sid].IsActive(e.clk.now)
  }

  /** The whole-second expiry of a token that a refresh issues now. */
  function NextExpiry(cfg: Settings, row: SessionRow, now: Time): Time {
    FloorSecond(Min(now + cfg.RefreshLifetime(), row.absoluteExpiresAt))
  }

  lemma RotationAnswers(cfg: Settings, t: Tables, e: Event, sid: Nonce)
    requires cfg.Valid() && OrderedReadings(e.clk)
    requires sid in t.sessions && t.sessions[sid].Constraints() && VerifiedUser(t, t.sessions[sid].userId)
    ensures var row := t.sessions[sid];
            var r := RotateSession(cfg, t, sid, e.clk, e.nonce, e.faults).response;
            if LoadUser in e.faults then r == Failed(Unavailable)
            else if !t.users[row.userId].isActive then r == Failed(InactiveUser)
            else if row.absoluteExpiresAt < e.clk.now + SECOND then r == Failed(ServerError)
            else if NextExpiry(cfg, row, e.clk.now) <= e.clk.recheck then r == Failed(InvalidRefreshToken)
            else if NextExpiry(cfg, row, e.clk.now) <= row.createdAt || CommitWork in e.faults then
              r == Failed(Unavailable)
            else r.Tokens?
  {
    var row := t.sessions[sid];
    PairWithinDeadline(cfg, UserSubject(row.userId), sid, e.clk.now, row.absoluteExpiresAt, e.nonce);
  }

  lemma RefreshByRow(cfg: Settings, t: Tables, e: Event)
    requires cfg.Valid() && e.action.Refresh?
    ensures var r := Step(cfg, t, e).response;
            var decoded := DecodeRefreshToken(e.action.presented, e.clk.arrive);
            if decoded.Err? || decoded.value.sub.OtherSubject? then r == Failed(InvalidRefreshToken)
            else if ReadRow in e.faults then r == Failed(Unavailable)
            else if !Recognised(t, e) then r == Failed(InvalidRefreshToken)
            else
              var token := e.action.presented.token;
              var row := t.sessions[token.sid];
              if IsCurrent(row, token) || IsRecoverablePrevious(cfg, row, token, e.clk.now) then
                r == RotateSession(cfg, t, token.sid, e.clk, e.nonce, e.faults).response
              else r == Failed(if CommitWork in e.faults then Unavailable else RefreshTokenReuseDetected)
  {
  }

  /** Which answer a refresh gets. The verification error of a refresh does not occur. */
  lemma RefreshAnswers(cfg: Settings, events: seq<Event>, e: Event)
    requires IsRun(cfg, events) && e.action.Refresh? && OrderedReadings(e.clk)
    ensures var h := Run(cfg, events);
            var r := Step(cfg, h.tables, e).response;
            var decoded := DecodeRefreshToken(e.action.presented, e.clk.arrive);
            if decoded.Err? || decoded.value.sub.OtherSubject? then
              r == Failed(InvalidRefreshToken)
            else if ReadRow in e.faults then r == Failed(Unavailable)
            else if !Recognised(h.tables, e) then r == Failed(InvalidRefreshToken)
            else
              var token := e.action.presented.token;
              var row := h.tables.sessions[token.sid];
              if !InWindow(cfg, Chain(h.log, token.sid), token, e.clk.now) then
                r == Failed(if CommitWork in e.faults then Unavailable else RefreshTokenReuseDetected)
              else if LoadUser in e.faults then r == Failed(Unavailable)
              else if DeactivatedInPast(h.log, row.userId) then r == Failed(InactiveUser)
              else if row.absoluteExpiresAt < e.clk.now + SECOND then r == Failed(ServerError)
              else if NextExpiry(cfg, row, e.clk.now) <= e.clk.recheck then r == Failed(InvalidRefreshToken)
              else if NextExpiry(cfg, row, e.clk.now) <= row.createdAt || CommitWork in e.faults then
                r == Failed(Unavailable)
              else r.Tokens?
  {
    var h := Run(cfg, events);
    RefreshByRow(cfg, h.tables, e);
    if Recognised(h.tables, e) {
      var token := e.action.presented.token;
      RotationChain(cfg, events, token.sid);
      OwnersStayVerified(cfg, events);
      AccountHistory(cfg, events, h.tables.sessions[token.sid].userId);
      HashesNameTheChain(cfg, h.tables, Nonces(h.log), Chain(h.log, token.sid), token, e.clk.now);
      RotationAnswers(cfg, h.tables, e, token.sid);
    }
  }

  // ----- exchange -----

  /** Bound to the same client, redirect URI and challenge, unexpired and never redeemed. */
  ghost predicate MayRedeem(cfg: Settings, log: seq<Entry>, request: TokenRequest, now: Time) {
    var issue := IssueOf(log, request.code);
    && issue.Some? && issue.value.action.IssueCode? && CodeRedemptions(log, request.code) == 0
    && issue.value.action.authorization.clientId == request.clientId
    && issue.value.action.authorization.redirectUri == request.redirectUri
    && issue.value.action.authorization.challenge == request.challenge
    && now < CodeExpiry(cfg, issue.value)
  }

  lemma MayRedeemIff(cfg: Settings, events: seq<Event>, request: TokenRequest, now: Time)
    requires IsRun(cfg, events) && MonotoneClock(events) && forall x <- events :: x.clk.now <= now
    ensures var h := Run(cfg, events);
            && (Redeemable(h.tables.codes, request, now) <==> MayRedeem(cfg, h.log, request, now))
            && (Redeemable(h.tables.codes, request, now) ==>
                var issue := IssueOf(h.log, request.code).value;
                var row := h.tables.codes[Digest(request.code)];
                && row.userId == issue.action.uid
                && (row.(consumedAt := Some(now)).Constraints() <==> issue.clk.began <= now))
  {
    CodeHistory(cfg, events, request.code);
    CodeConstraints(cfg, events, request.code);
  }

  lemma ExchangeByRow(cfg: Settings, t: Tables, e: Event)
    requires cfg.Valid() && e.action.Exchange? && OrderedReadings(e.clk) && e.nonce !in t.sessions
    ensures var request := e.action.exchange;
            var r := ExchangeCode(cfg, t, request, e.clk, e.nonce, e.faults).response;
            if request.clientId != cfg.clientId then r == Failed(InvalidClient)
            else if WriteRow in e.faults then r == Failed(Unavailable)
            else if !Redeemable(t.codes, request, e.clk.now) then r == Failed(InvalidGrant)
            else
              var row := t.codes[Digest(request.code)].(consumedAt := Some(e.clk.now));
              if !row.Constraints() || LoadUser in e.faults then r == Failed(Unavailable)
              else if row.userId !in t.users || !t.users[row.userId].isActive then r == Failed(InvalidGrant)
              else if cfg.absoluteTtl < SECOND then r == Failed(ServerError)
              else if NewExpiry(cfg, e.clk) <= e.clk.recheck then r == Failed(InvalidRefreshToken)
              else if NewExpiry(cfg, e.clk) <= e.clk.began || CommitWork in e.faults then r == Failed(Unavailable)
              else r.Tokens?
  {
    var h := Digest(e.action.exchange.code);
    if h in t.codes { StagingErrors(cfg, t.codes[h].userId, e.clk, e.nonce); }
  }

  /** Which answer an exchange gets, under a clock that never goes back. */
  lemma ExchangeAnswers(cfg: Settings, events: seq<Event>, e: Event)
    requires IsRun(cfg, events) && MonotoneClock(events) && e.action.Exchange? && OrderedReadings(e.clk)
    requires forall x <- events :: x.nonce != e.nonce && x.clk.now <= e.clk.now
    ensures var h, request := Run(cfg, events), e.action.exchange;
            var r := Step(cfg, h.tables, e).response;
            if request.clientId != cfg.clientId then r == Failed(InvalidClient)
            else if WriteRow in e.faults then r == Failed(Unavailable)
            else if !MayRedeem(cfg, h.log, request, e.clk.now) then r == Failed(InvalidGrant)
            else
              var issue := IssueOf(h.log, request.code).value;
              if e.clk.now < issue.clk.began || LoadUser in e.faults then r == Failed(Unavailable)
              else if DeactivatedInPast(h.log, issue.action.uid) then r == Failed(InvalidGrant)
              else if cfg.absoluteTtl < SECOND then r == Failed(ServerError)
              else if NewExpiry(cfg, e.clk) <= e.clk.recheck then r == Failed(InvalidRefreshToken)
              else if NewExpiry(cfg, e.clk) <= e.clk.began || CommitWork in e.faults then r == Failed(Unavailable)
              else r.Tokens?
  {
    var h, request := Run(cfg, events), e.action.exchange;
    MayRedeemIff(cfg, events, request, e.clk.now);
    NonceNamesNoSession(cfg, events, e.nonce);
    ExchangeByRow(cfg, h.tables, e);
    if Redeemable(h.tables.codes, request, e.clk.now) {
      OwnerHistory(cfg, events, Digest(request.code));
    }
  }

  lemma OwnerHistory(cfg: Settings, events: seq<Event>, code: Digest<Nonce>)
    requires code in Run(cfg, events).tables.codes
    ensures var h := Run(cfg, events);
            var uid := h.tables.codes[code].userId;
            uid in h.tables.users && (h.tables.users[uid].isActive <==> !DeactivatedInPast(h.log, uid))
  {
    OwnersStayVerified(cfg, events);
    AccountHistory(cfg, events, Run(cfg, events).tables.codes[code].userId);
  }
}
