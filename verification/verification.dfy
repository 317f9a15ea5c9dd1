/** Single-use e-mail verification tokens over whole runs: the latest token only, once, before it expires, and no two
    of them issued too close together. */
module EmailVerification {
  import opened Base
  import opened Security
  import opened Store
  import opened Credentials

  /** A verification token that was handed out, and when. */
  datatype Grant = Grant(token: Nonce, at: Time)

  predicate Grants(x: Entry, uid: UserId) { x.response.Verification? && x.response.uid == uid }

  /** Every verification token ever issued to an account, oldest first, read off the history of answers. */
  ghost function GrantsTo(log: seq<Entry>, uid: UserId): seq<Grant> {
    if log == [] then []
    else
      var x := log[|log| - 1];
      var before := GrantsTo(log[..|log| - 1], uid);
      if Grants(x, uid) then before + [Grant(x.response.token, x.event.clk.now)] else before
  }

  ghost function Confirmations(log: seq<Entry>, uid: UserId): nat {
    if log == [] then 0
    else Confirmations(log[..|log| - 1], uid) + if log[|log| - 1].response == Verified(uid) then 1 else 0
  }

  // ----- what one step can do to an account -----

  function RowOf(users: map<UserId, UserRow>, uid: UserId): Option<UserRow> {
    if uid in users then Some(users[uid]) else None
  }

  ghost predicate Issued(cfg: Settings, e: Event, r: Response, uid: UserId, before: Option<UserRow>,
                         after: Option<UserRow>) {
    && r == Verification(uid, e.nonce, e.clk.now + cfg.verificationTtl)
    && (before.Some? ==> !before.value.IsEmailVerified() && !CoolingDown(cfg, before.value, e.clk.now))
    && after == Some(Pending(cfg, if before.Some? then before.value else NEW_USER, e.clk.now, e.nonce))
  }

  ghost predicate Confirmed(e: Event, r: Response, uid: UserId, before: Option<UserRow>, after: Option<UserRow>) {
    && r == Verified(uid) && before.Some? && !before.value.IsEmailVerified()
    && e.action.VerifyEmail? && e.action.token.Some? && before.value.tokenHash == Some(Digest(e.action.token.value))
    && before.value.expiresAt.Some? && e.clk.now < before.value.expiresAt.value
    && after == Some(UserRow(Some(e.clk.now), None, None, None, before.value.isActive))
  }

  /** Expired: the token found by a confirmation, or by the clearing job, has run out. */
  ghost predicate Expired(e: Event, before: UserRow, after: UserRow) {
    && before.verifiedAt.None? && before.tokenHash.Some?
    && (before.expiresAt.None? || before.expiresAt.value <= e.clk.now)
    && after.(requestedAt := before.requestedAt) == before.(tokenHash := None, expiresAt := None)
    && (after.requestedAt == before.requestedAt || (after.requestedAt.None? && before.expiresAt.Some?))
  }

  ghost predicate Silent(e: Event, r: Response, uid: UserId, before: Option<UserRow>, after: Option<UserRow>) {
    && !(r.Verification? && r.uid == uid) && r != Verified(uid)
    && (|| after == before
        || (before.None? && after == Some(NEW_USER.(verifiedAt := Some(e.clk.now))))
        || (before.Some? && after == Some(before.value.(isActive := false)))
        || (before.Some? && after.Some? && Expired(e, before.value, after.value)))
  }

  ghost predicate UserEffect(cfg: Settings, e: Event, r: Response, uid: UserId, before: Option<UserRow>,
                             after: Option<UserRow>) {
    || Issued(cfg, e, r, uid, before, after) || Confirmed(e, r, uid, before, after) || Silent(e, r, uid, before, after)
  }

  lemma UserEffects(cfg: Settings, t: Tables, e: Event, uid: UserId)
    ensures var o := Step(cfg, t, e);
            UserEffect(cfg, e, o.response, uid, RowOf(t.users, uid), RowOf(o.tables.users, uid))
  {
    match e.action
    case Register(_) =>
    case RegisterTrusted(_) =>
    case RequestVerification(_) =>
    case VerifyEmail(token) => ConfirmationEffect(cfg, t, e, uid);
    case Deactivate(_) =>
    case ClearVerification =>
    case _ => AccountsUntouched(cfg, t, e);
  }

  lemma ConfirmationEffect(cfg: Settings, t: Tables, e: Event, uid: UserId)
    requires e.action.VerifyEmail?
    ensures var o := ConfirmEmail(t, e.action.token, e.clk.now, e.faults);
            UserEffect(cfg, e, o.response, uid, RowOf(t.users, uid), RowOf(o.tables.users, uid))
  {
  }

  // ----- the invariant of one account -----

  /** Hash and expiry are set together, only while unverified, for the last token issued and its own lifetime. */
  ghost predicate AccountOk(cfg: Settings, row: Option<UserRow>, g: seq<Grant>, confirmations: nat) {
    if row.None? then g == [] && confirmations == 0
    else
      var user := row.value;
      && (user.tokenHash.Some? <==> user.expiresAt.Some?)
      && (user.tokenHash.Some? ==>
          && user.verifiedAt.None? && g != []
          && user.tokenHash == Some(Digest(g[|g| - 1].token))
          && user.requestedAt == Some(g[|g| - 1].at)
          && user.expiresAt == Some(g[|g| - 1].at + cfg.verificationTtl))
      && (user.requestedAt.Some? ==> user.verifiedAt.None? && g != [] && user.requestedAt == Some(g[|g| - 1].at))
      && (user.verifiedAt.None? ==> g != [])
      && confirmations <= if user.verifiedAt.None? then 0 else 1
  }

  lemma GrantsGrow(log: seq<Entry>, x: Entry, uid: UserId)
    ensures GrantsTo(log + [x], uid)
            == if Grants(x, uid) then GrantsTo(log, uid) + [Grant(x.response.token, x.event.clk.now)]
               else GrantsTo(log, uid)
    ensures Confirmations(log + [x], uid) == Confirmations(log, uid) + if x.response == Verified(uid) then 1 else 0
  {
    assert (log + [x])[..|log + [x]| - 1] == log;
  }

  lemma IssuedKeeps(cfg: Settings, e: Event, r: Response, uid: UserId, before: Option<UserRow>, after: Option<UserRow>,
                    g: seq<Grant>, n: nat)
    requires AccountOk(cfg, before, g, n) && Issued(cfg, e, r, uid, before, after)
    ensures AccountOk(cfg, after, g + [Grant(e.nonce, e.clk.now)], n)
  {
  }

  lemma OthersKeep(cfg: Settings, e: Event, r: Response, uid: UserId, before: Option<UserRow>, after: Option<UserRow>,
                   g: seq<Grant>, n: nat)
    requires AccountOk(cfg, before, g, n)
    ensures Confirmed(e, r, uid, before, after) ==> AccountOk(cfg, after, g, n + 1)
    ensures Silent(e, r, uid, before, after) ==> AccountOk(cfg, after, g, n)
  {
  }

  lemma AccountStep(cfg: Settings, log: seq<Entry>, e: Event, r: Response, uid: UserId, before: Option<UserRow>,
                    after: Option<UserRow>)
    requires AccountOk(cfg, before, GrantsTo(log, uid), Confirmations(log, uid))
    requires UserEffect(cfg, e, r, uid, before, after)
    ensures var log' := log + [Entry(e, r)]; AccountOk(cfg, after, GrantsTo(log', uid), Confirmations(log', uid))
  {
    GrantsGrow(log, Entry(e, r), uid);
    var g, n := GrantsTo(log, uid), Confirmations(log, uid);
    if Issued(cfg, e, r, uid, before, after) { IssuedKeeps(cfg, e, r, uid, before, after, g, n); }
    OthersKeep(cfg, e, r, uid, before, after, g, n);
  }

  /** Every reachable account row has hash and expiry set together, only while unverified, with the hash of the last
      token issued to it and the expiry that token was issued with. */
  lemma {:induction false} PendingRowShape(cfg: Settings, events: seq<Event>, uid: UserId)
    ensures var h := Run(cfg, events);
            AccountOk(cfg, RowOf(h.tables.users, uid), GrantsTo(h.log, uid), Confirmations(h.log, uid))
  {
    if events != [] {
      var before, e := events[..|events| - 1], events[|events| - 1];
      var h := Run(cfg, before);
      var o := Step(cfg, h.tables, e);
      PendingRowShape(cfg, before, uid);
      UserEffects(cfg, h.tables, e, uid);
      AccountStep(cfg, h.log, e, o.response, uid, RowOf(h.tables.users, uid), RowOf(o.tables.users, uid));
    }
  }

  /** An account is confirmed at most once in any run. */
  lemma ConfirmedAtMostOnce(cfg: Settings, events: seq<Event>, uid: UserId)
    ensures Confirmations(Run(cfg, events).log, uid) <= 1
  {
    PendingRowShape(cfg, events, uid);
  }

  /** Whatever the clock readings, only the last token issued to an unverified account confirms it, strictly before
      that token's own expiry. */
  lemma OnlyLatestTokenConfirms(cfg: Settings, events: seq<Event>, e: Event, uid: UserId)
    requires Step(cfg, Run(cfg, events).tables, e).response == Verified(uid)
    ensures var h := Run(cfg, events);
            var g := GrantsTo(h.log, uid);
            && e.action.VerifyEmail? && g != [] && e.action.token == Some(g[|g| - 1].token)
            && e.clk.now < g[|g| - 1].at + cfg.verificationTtl
            && uid in h.tables.users && !h.tables.users[uid].IsEmailVerified()
  {
    PendingRowShape(cfg, events, uid);
    UserEffects(cfg, Run(cfg, events).tables, e, uid);
  }

  // ----- under a clock that never goes back -----

  /** A token or request time that is gone although the account is still unverified had run out by `bound`. */
  ghost predicate GoneOnlyAfterExpiry(cfg: Settings, row: Option<UserRow>, g: seq<Grant>, bound: Time) {
    row.Some? && row.value.verifiedAt.None? && g != [] && (row.value.tokenHash.None? || row.value.requestedAt.None?)
    ==> g[|g| - 1].at + cfg.verificationTtl <= bound
  }

  ghost predicate SpacedApart(cfg: Settings, g: seq<Grant>) {
    forall i :: 0 < i < |g| ==> g[i].at - g[i - 1].at >= Min(cfg.resendCooldown, cfg.verificationTtl)
  }

  lemma ExpiryStep(cfg: Settings, log: seq<Entry>, e: Event, r: Response, uid: UserId, before: Option<UserRow>,
                   after: Option<UserRow>, bound: Time)
    requires AccountOk(cfg, before, GrantsTo(log, uid), Confirmations(log, uid))
    requires UserEffect(cfg, e, r, uid, before, after) && bound <= e.clk.now
    requires GoneOnlyAfterExpiry(cfg, before, GrantsTo(log, uid), bound) && SpacedApart(cfg, GrantsTo(log, uid))
    ensures var g := GrantsTo(log + [Entry(e, r)], uid);
            GoneOnlyAfterExpiry(cfg, after, g, e.clk.now) && SpacedApart(cfg, g)
  {
    GrantsGrow(log, Entry(e, r), uid);
  }

  lemma {:induction false} TokensLastUntilExpiry(cfg: Settings, events: seq<Event>, uid: UserId)
    requires MonotoneClock(events)
    ensures var h := Run(cfg, events);
            var g := GrantsTo(h.log, uid);
            && (events == [] ==> g == [])
            && (events != [] ==> GoneOnlyAfterExpiry(cfg, RowOf(h.tables.users, uid), g, events[|events| - 1].clk.now))
            && SpacedApart(cfg, g)
  {
    if events != [] {
      var before, e := events[..|events| - 1], events[|events| - 1];
      var h := Run(cfg, before);
      var o := Step(cfg, h.tables, e);
      TokensLastUntilExpiry(cfg, before, uid);
      PendingRowShape(cfg, before, uid);
      UserEffects(cfg, h.tables, e, uid);
      var bound := if before == [] then e.clk.now else before[|before| - 1].clk.now;
      ExpiryStep(cfg, h.log, e, o.response, uid, RowOf(h.tables.users, uid), RowOf(o.tables.users, uid), bound);
    }
  }

  /** Any two consecutive tokens of an account are issued at least min(cooldown, TTL) apart, although the clearing job
      erases the request time that the cooldown is measured from. */
  lemma IssuanceSpacing(cfg: Settings, events: seq<Event>, uid: UserId, i: nat)
    requires MonotoneClock(events) && 0 < i < |GrantsTo(Run(cfg, events).log, uid)|
    ensures var g := GrantsTo(Run(cfg, events).log, uid);
            g[i].at - g[i - 1].at >= Min(cfg.resendCooldown, cfg.verificationTtl)
  {
    TokensLastUntilExpiry(cfg, events, uid);
  }

  /** An answered clearing job finds the account's token expired, and erases its request time too. */
  ghost predicate ErasesRequest(t: Tables, e: Event, uid: UserId) {
    && e.action.ClearVerification? && e.faults !! {WriteRow, CommitWork}
    && uid in t.users && ClearsAt(t.users[uid], e.clk.now)
  }

  /** A clearing job has erased the request of the account's last token. */
  ghost predicate RequestErased(cfg: Settings, events: seq<Event>, uid: UserId) {
    events != [] &&
    var before, e := events[..|events| - 1], events[|events| - 1];
    var t := Run(cfg, before).tables;
    ErasesRequest(t, e, uid) || (RequestErased(cfg, before, uid) && !Grants(Entry(e, Step(cfg, t, e).response), uid))
  }

  ghost predicate NoRequest(t: Tables, uid: UserId) {
    uid in t.users && !t.users[uid].IsEmailVerified() && t.users[uid].requestedAt.None?
  }

  lemma RequestStep(cfg: Settings, t: Tables, e: Event, uid: UserId)
    ensures var o := Step(cfg, t, e);
            uid in o.tables.users && !o.tables.users[uid].IsEmailVerified() ==>
              (NoRequest(o.tables, uid)
               <==> ErasesRequest(t, e, uid) || (NoRequest(t, uid) && !Grants(Entry(e, o.response), uid)))
  {
    match e.action
    case Register(_) =>
    case RegisterTrusted(_) =>
    case RequestVerification(_) =>
    case VerifyEmail(_) =>
    case Deactivate(_) =>
    case ClearVerification =>
    case _ => AccountsUntouched(cfg, t, e);
  }

  lemma {:induction false} RequestErasedMeans(cfg: Settings, events: seq<Event>, uid: UserId)
    ensures var t := Run(cfg, events).tables;
            uid in t.users && !t.users[uid].IsEmailVerified() ==>
              (NoRequest(t, uid) <==> RequestErased(cfg, events, uid))
    ensures uid !in Run(cfg, events).tables.users ==> !RequestErased(cfg, events, uid)
  {
    if events != [] {
      var before, e := events[..|events| - 1], events[|events| - 1];
      RequestErasedMeans(cfg, before, uid);
      RequestStep(cfg, Run(cfg, before).tables, e, uid);
      UserEffects(cfg, Run(cfg, before).tables, e, uid);
    }
  }

  /** An unverified account asks for a token again: its last one is at least the cooldown old, or its request erased. */
  ghost predicate ResendDue(cfg: Settings, t: Tables, g: seq<Grant>, e: Event, erased: bool)
    requires e.action.RequestVerification?
  {
    && e.action.uid in t.users && !t.users[e.action.uid].IsEmailVerified() && g != []
    && (g[|g| - 1].at + cfg.resendCooldown <= e.clk.now || erased)
    && e.faults !! {ReadRow, CommitWork}
  }

  lemma ResendIff(cfg: Settings, t: Tables, g: seq<Grant>, n: nat, e: Event, erased: bool)
    requires e.action.RequestVerification? && AccountOk(cfg, RowOf(t.users, e.action.uid), g, n)
    requires var uid := e.action.uid;
             uid in t.users && !t.users[uid].IsEmailVerified() && g != []
             && e.clk.now < g[|g| - 1].at + cfg.resendCooldown
             ==> (NoRequest(t, uid) <==> erased)
    ensures Step(cfg, t, e).response.Verification? <==> ResendDue(cfg, t, g, e, erased)
  {
  }

  /** Whatever the settings and the clock readings, a resend is answered with a token exactly when the account is
      unverified and its last token is at least the cooldown old or had its request erased by a clearing job. */
  lemma ResendAnsweredIff(cfg: Settings, events: seq<Event>, e: Event)
    requires e.action.RequestVerification?
    ensures var h := Run(cfg, events);
            Step(cfg, h.tables, e).response.Verification?
            <==> ResendDue(cfg, h.tables, GrantsTo(h.log, e.action.uid), e, RequestErased(cfg, events, e.action.uid))
  {
    var h, uid := Run(cfg, events), e.action.uid;
    PendingRowShape(cfg, events, uid);
    RequestErasedMeans(cfg, events, uid);
    ResendIff(cfg, h.tables, GrantsTo(h.log, uid), Confirmations(h.log, uid), e, RequestErased(cfg, events, uid));
  }

  /** Under a clock that never goes back, and with a cooldown no longer than the TTL, the job makes no difference: the
      last token is at least the cooldown old. */
  lemma ResendAfterCooldown(cfg: Settings, events: seq<Event>, e: Event)
    requires MonotoneClock(events) && e.action.RequestVerification? && cfg.resendCooldown <= cfg.verificationTtl
    requires events != [] ==> events[|events| - 1].clk.now <= e.clk.now
    ensures var h := Run(cfg, events);
            Step(cfg, h.tables, e).response.Verification?
            <==> ResendDue(cfg, h.tables, GrantsTo(h.log, e.action.uid), e, false)
  {
    var h, uid := Run(cfg, events), e.action.uid;
    PendingRowShape(cfg, events, uid);
    TokensLastUntilExpiry(cfg, events, uid);
    ResendIff(cfg, h.tables, GrantsTo(h.log, uid), Confirmations(h.log, uid), e, false);
  }

  ghost predicate GrantedAt(events: seq<Event>, log: seq<Entry>, uid: UserId, token: Nonce, j: int) {
    0 <= j < |events| && j < |log| && Grants(log[j], uid) && events[j].nonce == token
  }

  lemma GrantedStays(events: seq<Event>, log: seq<Entry>, x: Entry, uid: UserId, token: Nonce, j: int)
    requires GrantedAt(events, log, uid, token, j)
    ensures GrantedAt(events + [x.event], log + [x], uid, token, j)
  {
  }

  lemma GrantedNow(events: seq<Event>, log: seq<Entry>, x: Entry, uid: UserId)
    requires |events| == |log| && Grants(x, uid)
    ensures GrantedAt(events + [x.event], log + [x], uid, x.event.nonce, |log|)
  {
  }

  lemma GrantLoggedStep(events: seq<Event>, log: seq<Entry>, x: Entry, uid: UserId, i: nat)
    requires |events| == |log| && i < |GrantsTo(log + [x], uid)|
    requires Grants(x, uid) ==> x.response.token == x.event.nonce
    requires i < |GrantsTo(log, uid)| ==> exists j :: GrantedAt(events, log, uid, GrantsTo(log, uid)[i].token, j)
    ensures exists j :: GrantedAt(events + [x.event], log + [x], uid, GrantsTo(log + [x], uid)[i].token, j)
  {
    var g, g' := GrantsTo(log, uid), GrantsTo(log + [x], uid);
    GrantsGrow(log, x, uid);
    if i < |g| {
      assert g'[i] == g[i];
      var j :| GrantedAt(events, log, uid, g[i].token, j);
      GrantedStays(events, log, x, uid, g'[i].token, j);
    } else {
      assert g'[i] == Grant(x.response.token, x.event.clk.now);
      GrantedNow(events, log, x, uid);
    }
  }

  /** Tokens of different accounts differ, because each is the randomness of its own request. */
  lemma {:induction false} GrantIsLogged(cfg: Settings, events: seq<Event>, uid: UserId, i: nat)
    requires i < |GrantsTo(Run(cfg, events).log, uid)|
    ensures var log := Run(cfg, events).log; exists j :: GrantedAt(events, log, uid, GrantsTo(log, uid)[i].token, j)
  {
    var before, e := events[..|events| - 1], events[|events| - 1];
    var h := Run(cfg, before);
    var o := Step(cfg, h.tables, e);
    UserEffects(cfg, h.tables, e, uid);
    if i < |GrantsTo(h.log, uid)| { GrantIsLogged(cfg, before, uid, i); }
    GrantLoggedStep(before, h.log, Entry(e, o.response), uid, i);
    assert events == before + [e];
  }

  lemma HeldTokenWasGranted(cfg: Settings, events: seq<Event>, uid: UserId, token: Nonce)
    requires Holds(Run(cfg, events).tables.users, uid, token)
    ensures exists j :: GrantedAt(events, Run(cfg, events).log, uid, token, j)
  {
    PendingRowShape(cfg, events, uid);
    GrantIsLogged(cfg, events, uid, |GrantsTo(Run(cfg, events).log, uid)| - 1);
  }

  lemma TokensNameTheirAccount(cfg: Settings, events: seq<Event>, u: UserId, v: UserId, token: Nonce)
    requires FreshNonces(events)
    requires Holds(Run(cfg, events).tables.users, u, token) && Holds(Run(cfg, events).tables.users, v, token)
    ensures u == v
  {
    HeldTokenWasGranted(cfg, events, u, token);
    HeldTokenWasGranted(cfg, events, v, token);
    var i :| GrantedAt(events, Run(cfg, events).log, u, token, i);
    var j :| GrantedAt(events, Run(cfg, events).log, v, token, j);
    assert i == j;
  }

  ghost predicate LatestPending(cfg: Settings, h: History, uid: UserId, token: Nonce, now: Time) {
    var g := GrantsTo(h.log, uid);
    && uid in h.tables.users && !h.tables.users[uid].IsEmailVerified()
    && g != [] && token == g[|g| - 1].token && now < g[|g| - 1].at + cfg.verificationTtl
  }

  lemma PendingIsHeld(cfg: Settings, events: seq<Event>, uid: UserId, token: Nonce, now: Time)
    requires IsRun(cfg, events) && MonotoneClock(events) && LatestPending(cfg, Run(cfg, events), uid, token, now)
    requires events != [] ==> events[|events| - 1].clk.now <= now
    ensures var users := Run(cfg, events).tables.users;
            && Holder(users, token) == Some(uid) && users[uid].expiresAt.Some? && now < users[uid].expiresAt.value
  {
    PendingRowHolds(cfg, events, uid, token, now);
    TokensNameTheirAccount(cfg, events, uid, Holder(Run(cfg, events).tables.users, token).value, token);
  }

  lemma PendingRowHolds(cfg: Settings, events: seq<Event>, uid: UserId, token: Nonce, now: Time)
    requires MonotoneClock(events) && LatestPending(cfg, Run(cfg, events), uid, token, now)
    requires events != [] ==> events[|events| - 1].clk.now <= now
    ensures var users := Run(cfg, events).tables.users;
            Holds(users, uid, token) && users[uid].expiresAt.Some? && now < users[uid].expiresAt.value
  {
    PendingRowShape(cfg, events, uid);
    TokensLastUntilExpiry(cfg, events, uid);
    var h := Run(cfg, events);
    PendingByRow(cfg, RowOf(h.tables.users, uid), GrantsTo(h.log, uid), Confirmations(h.log, uid), token, now);
  }

  lemma PendingByRow(cfg: Settings, row: Option<UserRow>, g: seq<Grant>, n: nat, token: Nonce, now: Time)
    requires AccountOk(cfg, row, g, n) && row.Some? && row.value.verifiedAt.None?
    requires g != [] && token == g[|g| - 1].token && now < g[|g| - 1].at + cfg.verificationTtl
    requires exists bound :: bound <= now && GoneOnlyAfterExpiry(cfg, row, g, bound)
    ensures row.value.tokenHash == Some(Digest(token)) && row.value.expiresAt.Some? && now < row.value.expiresAt.value
  {
  }

  /** Under a clock that never goes back, a confirmation succeeds exactly when it presents the last token issued to a
      still unverified account before its expiry: no resend, clearing job or failed attempt loses it earlier. */
  lemma ConfirmedIff(cfg: Settings, events: seq<Event>, e: Event, uid: UserId)
    requires IsRun(cfg, events) && MonotoneClock(events) && e.action.VerifyEmail? && e.action.token.Some?
    requires events != [] ==> events[|events| - 1].clk.now <= e.clk.now
    ensures Step(cfg, Run(cfg, events).tables, e).response == Verified(uid)
            <==> LatestPending(cfg, Run(cfg, events), uid, e.action.token.value, e.clk.now)
                 && e.faults !! {ReadRow, CommitWork}
  {
    var h, token := Run(cfg, events), e.action.token.value;
    if LatestPending(cfg, h, uid, token, e.clk.now) { PendingIsHeld(cfg, events, uid, token, e.clk.now); }
    if Step(cfg, h.tables, e).response == Verified(uid) {
      OnlyLatestTokenConfirms(cfg, events, e, uid);
    }
  }
}
