/** Every authorization code and refresh session belongs to an e-mail-verified account, in every reachable state. */
module Ownership {
  import opened Base
  import opened Security
  import opened Store
  import opened Credentials
  import opened EmailVerification

  ghost predicate VerifiedUser(t: Tables, uid: UserId) { uid in t.users && t.users[uid].IsEmailVerified() }

  ghost predicate VerifiedOwners(t: Tables) {
    && (forall sid <- t.sessions :: VerifiedUser(t, t.sessions[sid].userId))
    && (forall h <- t.codes :: VerifiedUser(t, t.codes[h].userId))
  }

  /** No step deletes an account or takes its verification back. */
  lemma VerificationIsKept(cfg: Settings, t: Tables, e: Event, uid: UserId)
    requires VerifiedUser(t, uid)
    ensures VerifiedUser(Step(cfg, t, e).tables, uid)
  {
    UserEffects(cfg, t, e, uid);
  }

  /** Sessions come from an authenticated account or from an existing code. */
  lemma NewSessionsAreOwned(cfg: Settings, t: Tables, e: Event, sid: Nonce)
    requires VerifiedOwners(t) && sid in Step(cfg, t, e).tables.sessions
    ensures VerifiedUser(t, Step(cfg, t, e).tables.sessions[sid].userId)
  {
    match e.action
    case Login(_, _) =>
    case Exchange(_) =>
    case Refresh(_) =>
    case Logout(_) =>
    case PruneSessions =>
    case _ => SessionsUntouched(cfg, t, e);
  }

  /** Codes come from an authenticated account. */
  lemma NewCodesAreOwned(cfg: Settings, t: Tables, e: Event, h: Digest<Nonce>)
    requires VerifiedOwners(t) && h in Step(cfg, t, e).tables.codes
    ensures VerifiedUser(t, Step(cfg, t, e).tables.codes[h].userId)
  {
    match e.action
    case IssueCode(_, _, _) =>
    case Exchange(_) =>
    case PruneCodes =>
    case _ => CodesUntouched(cfg, t, e);
  }

  lemma {:induction false} OwnersStayVerified(cfg: Settings, events: seq<Event>)
    ensures VerifiedOwners(Run(cfg, events).tables)
  {
    if events != [] {
      var t := Run(cfg, events[..|events| - 1]).tables;
      var e := events[|events| - 1];
      OwnersStayVerified(cfg, events[..|events| - 1]);
      var t' := Step(cfg, t, e).tables;
      forall sid | sid in t'.sessions ensures VerifiedUser(t, t'.sessions[sid].userId) {
        NewSessionsAreOwned(cfg, t, e, sid);
      }
      forall h | h in t'.codes ensures VerifiedUser(t, t'.codes[h].userId) {
        NewCodesAreOwned(cfg, t, e, h);
      }
      forall uid | VerifiedUser(t, uid) ensures VerifiedUser(t', uid) {
        VerificationIsKept(cfg, t, e, uid);
      }
    }
  }

  /** So the verification check inside a refresh never fires, and neither does its missing-account branch. */
  lemma RefreshNeverUnverified(cfg: Settings, events: seq<Event>, e: Event)
    requires e.action.Refresh?
    ensures var t := Run(cfg, events).tables;
            && Step(cfg, t, e).response != Failed(EmailNotVerified)
            && (Step(cfg, t, e).response == Failed(InvalidRefreshToken) ==> Step(cfg, t, e).tables == t)
  {
    OwnersStayVerified(cfg, events);
  }
}
