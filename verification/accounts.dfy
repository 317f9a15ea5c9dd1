/** Accounts over whole runs: an address is registered once, and a deactivated account is out for good. */
module Accounts {
  import opened Base
  import opened Security
  import opened Store
  import opened Credentials
  import opened EmailVerification

  /** An answered registration of the address. */
  predicate Registers(x: Entry, uid: UserId) {
    && x.event.action in {Register(uid), RegisterTrusted(uid)}
    && !x.response.Failed?
  }

  ghost function Registrations(log: seq<Entry>, uid: UserId): nat {
    if log == [] then 0 else Registrations(log[..|log| - 1], uid) + if Registers(log[|log| - 1], uid) then 1 else 0
  }

  lemma RegistrationEffect(cfg: Settings, t: Tables, e: Event, uid: UserId)
    ensures var o := Step(cfg, t, e);
            && (uid in o.tables.users <==> uid in t.users || Registers(Entry(e, o.response), uid))
            && (Registers(Entry(e, o.response), uid) ==> uid !in t.users)
  {
    UserEffects(cfg, t, e, uid);
    match e.action
    case Register(_) =>
    case RegisterTrusted(_) =>
    case RequestVerification(_) =>
    case VerifyEmail(_) =>
    case Deactivate(_) =>
    case ClearVerification =>
    case _ => AccountsUntouched(cfg, t, e);
  }

  /** In any run an address is registered at most once, and has an account exactly from then on. */
  lemma {:induction false} RegisteredOnce(cfg: Settings, events: seq<Event>, uid: UserId)
    ensures var h := Run(cfg, events);
            Registrations(h.log, uid) == if uid in h.tables.users then 1 else 0
  {
    if events != [] {
      var before, e := events[..|events| - 1], events[|events| - 1];
      var h := Run(cfg, before);
      var x := Entry(e, Step(cfg, h.tables, e).response);
      RegisteredOnce(cfg, before, uid);
      RegistrationEffect(cfg, h.tables, e, uid);
      assert Run(cfg, events).log == h.log + [x] && (h.log + [x])[..|h.log|] == h.log;
    }
  }

  // ----- who is admitted -----

  /** The address was confirmed, or registered by a trusted workflow. */
  predicate Verifies(x: Entry, uid: UserId) {
    x.response == Verified(uid) || (x.event.action == RegisterTrusted(uid) && !x.response.Failed?)
  }

  predicate Deactivates(x: Entry, uid: UserId) { x.event.action == Deactivate(uid) && !x.response.Failed? }

  ghost predicate VerifiedInPast(log: seq<Entry>, uid: UserId) { exists x <- log :: Verifies(x, uid) }

  /** Deactivated while it existed. */
  ghost predicate DeactivatedInPast(log: seq<Entry>, uid: UserId) {
    exists i :: 0 <= i < |log| && Deactivates(log[i], uid) && Registrations(log[..i], uid) == 1
  }

  lemma AdmissionStep(cfg: Settings, t: Tables, e: Event, uid: UserId)
    ensures var o := Step(cfg, t, e);
            var x := Entry(e, o.response);
            && (uid in t.users ==> uid in o.tables.users)
            && (uid !in o.tables.users ==> !Verifies(x, uid))
            && (uid in o.tables.users ==>
                && (o.tables.users[uid].IsEmailVerified() <==>
                    (uid in t.users && t.users[uid].IsEmailVerified()) || Verifies(x, uid))
                && (o.tables.users[uid].isActive <==>
                    uid in t.users ==> t.users[uid].isActive && !Deactivates(x, uid)))
  {
    match e.action
    case Register(_) =>
    case RegisterTrusted(_) =>
    case RequestVerification(_) =>
    case VerifyEmail(_) =>
    case Deactivate(_) =>
    case ClearVerification =>
    case _ => AccountsUntouched(cfg, t, e);
  }

  lemma PastGrows(log: seq<Entry>, x: Entry, uid: UserId)
    ensures VerifiedInPast(log + [x], uid) <==> VerifiedInPast(log, uid) || Verifies(x, uid)
    ensures DeactivatedInPast(log + [x], uid)
            <==> DeactivatedInPast(log, uid) || (Deactivates(x, uid) && Registrations(log, uid) == 1)
  {
    var log' := log + [x];
    assert log'[|log|] == x && log'[..|log|] == log;
    assert forall i :: 0 <= i < |log| ==> log'[i] == log[i] && log'[..i] == log[..i];
  }

  lemma {:induction false} AccountHistory(cfg: Settings, events: seq<Event>, uid: UserId)
    ensures var h := Run(cfg, events);
            if uid in h.tables.users
            then && (h.tables.users[uid].IsEmailVerified() <==> VerifiedInPast(h.log, uid))
                 && (h.tables.users[uid].isActive <==> !DeactivatedInPast(h.log, uid))
            else !VerifiedInPast(h.log, uid) && !DeactivatedInPast(h.log, uid)
  {
    if events != [] {
      var before, e := events[..|events| - 1], events[|events| - 1];
      var h := Run(cfg, before);
      AccountHistory(cfg, before, uid);
      RegisteredOnce(cfg, before, uid);
      AdmissionStep(cfg, h.tables, e, uid);
      PastGrows(h.log, Entry(e, Step(cfg, h.tables, e).response), uid);
    }
  }

  /** At every reachable state credentials are accepted exactly with the right password for an address that was
      registered, was confirmed or trusted, and was never deactivated. */
  lemma AdmittedIff(cfg: Settings, events: seq<Event>, uid: UserId, passwordOk: bool, faults: set<Statement>)
    ensures var h := Run(cfg, events);
            Refusal(h.tables, uid, passwordOk, faults).None? <==>
              && ReadRow !in faults && passwordOk && Registrations(h.log, uid) == 1
              && VerifiedInPast(h.log, uid) && !DeactivatedInPast(h.log, uid)
  {
    AccountHistory(cfg, events, uid);
    RegisteredOnce(cfg, events, uid);
  }

  /** Without the password nobody learns whether an address has an account, or in which state it is: whatever the
      accounts, the answer is the same. */
  lemma WrongPasswordRevealsNothing(cfg: Settings, t: Tables, t': Tables, e: Event)
    requires (e.action.Login? || e.action.IssueCode?) && !e.action.passwordOk
    ensures Step(cfg, t, e).response == Step(cfg, t', e).response && Step(cfg, t, e).tables == t
  {
  }

  // ----- deactivation -----

  ghost predicate Inactive(t: Tables, uid: UserId) { uid in t.users && !t.users[uid].isActive }

  lemma InactiveStep(cfg: Settings, t: Tables, e: Event, uid: UserId)
    requires Inactive(t, uid)
    ensures Inactive(Step(cfg, t, e).tables, uid)
  {
    UserEffects(cfg, t, e, uid);
  }

  /** No step activates an account again. */
  lemma {:induction false} DeactivationIsFinal(cfg: Settings, events: seq<Event>, n: nat, uid: UserId)
    requires n <= |events| && Inactive(Run(cfg, events[..n]).tables, uid)
    ensures Inactive(Run(cfg, events).tables, uid)
    decreases |events|
  {
    if n == |events| {
      assert events[..n] == events;
    } else {
      var before := events[..|events| - 1];
      assert before[..n] == events[..n];
      DeactivationIsFinal(cfg, before, n, uid);
      InactiveStep(cfg, Run(cfg, before).tables, events[|events| - 1], uid);
    }
  }

  /** Tokens are made for the owner of the session that is opened or rotated. */
  lemma TokensForActiveOnly(cfg: Settings, t: Tables, e: Event, uid: UserId)
    requires cfg.Valid() && Inactive(t, uid)
    ensures var r := Step(cfg, t, e).response;
            r.Tokens? ==> r.pair.access.sub != UserSubject(uid) && r.pair.refresh.sub != UserSubject(uid)
  {
    match e.action
    case Login(other, _) =>
      PairWithinDeadline(cfg, UserSubject(other), e.nonce, e.clk.now, e.clk.now + cfg.absoluteTtl, e.nonce);
    case Exchange(request) =>
      if Digest(request.code) in t.codes {
        var owner := t.codes[Digest(request.code)].userId;
        PairWithinDeadline(cfg, UserSubject(owner), e.nonce, e.clk.now, e.clk.now + cfg.absoluteTtl, e.nonce);
      }
    case Refresh(presented) =>
      if presented.Signed? && presented.token.sid in t.sessions {
        var sid, row := presented.token.sid, t.sessions[presented.token.sid];
        PairWithinDeadline(cfg, UserSubject(row.userId), sid, e.clk.now, row.absoluteExpiresAt, e.nonce);
      }
    case Logout(_) =>
    case PruneSessions =>
    case _ => SessionsUntouched(cfg, t, e);
  }

  /** Once deactivated, an account is never again given tokens, by login, exchange or refresh, nor an authorization
      code, although its sessions and codes stay in the tables. */
  lemma NothingAfterDeactivation(cfg: Settings, events: seq<Event>, n: nat, e: Event, uid: UserId)
    requires cfg.Valid() && n <= |events| && Inactive(Run(cfg, events[..n]).tables, uid)
    ensures var o := Step(cfg, Run(cfg, events).tables, e);
            && (o.response.Tokens? ==>
                o.response.pair.access.sub != UserSubject(uid) && o.response.pair.refresh.sub != UserSubject(uid))
            && (o.response.Code? ==> e.action.IssueCode? && e.action.uid != uid)
  {
    DeactivationIsFinal(cfg, events, n, uid);
    TokensForActiveOnly(cfg, Run(cfg, events).tables, e, uid);
    CodesForActiveOnly(cfg, Run(cfg, events).tables, e, uid);
  }

  lemma CodesForActiveOnly(cfg: Settings, t: Tables, e: Event, uid: UserId)
    requires Inactive(t, uid)
    ensures Step(cfg, t, e).response.Code? ==> e.action.IssueCode? && e.action.uid != uid
  {
    match e.action
    case Login(_, _) =>
    case Exchange(_) =>
    case Refresh(_) =>
    case _ =>
  }
}
