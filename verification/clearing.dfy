/** The clearing of expired verification tokens, and exactly when clients can tell that it ran: for given settings, and
    for a given run. */
module Clearing {
  import opened Base
  import opened Security
  import opened Store
  import opened Credentials
  import opened EmailVerification
  import opened Pruning

  // ----- what the job took, read off the run itself -----

  /** An answered clearing job finds the token of the account expired. */
  ghost predicate ClearsToken(t: Tables, e: Event, uid: UserId, token: Nonce) {
    && e.action.ClearVerification? && e.faults !! {WriteRow, CommitWork}
    && Holds(t.users, uid, token) && ClearsAt(t.users[uid], e.clk.now)
  }

  /** The account got another token, or the token was presented to a confirmation whose statements did not fail. */
  predicate Supersedes(e: Event, r: Response, uid: UserId, token: Nonce) {
    || (r.Verification? && r.uid == uid)
    || (e.action == VerifyEmail(Some(token)) && e.faults !! {ReadRow, CommitWork})
  }

  /** A job has cleared the token of the account, and nothing has superseded it since. */
  ghost predicate Cleared(cfg: Settings, events: seq<Event>, uid: UserId, token: Nonce) {
    events != [] &&
    var before, e := events[..|events| - 1], events[|events| - 1];
    var t := Run(cfg, before).tables;
    || ClearsToken(t, e, uid, token)
    || (Cleared(cfg, before, uid, token) && !Supersedes(e, Step(cfg, t, e).response, uid, token))
  }

  /** A confirmation presents such a token, and finds no account while its commit fails. */
  ghost predicate ConfirmsCleared(cfg: Settings, events: seq<Event>, e: Event) {
    FailsToCommit(e.action, e.faults) && exists uid :: Cleared(cfg, events, uid, e.action.token.value)
  }

  ghost predicate NeverConfirmsCleared(cfg: Settings, events: seq<Event>) {
    forall n :: 0 <= n < |events| ==> !ConfirmsCleared(cfg, events[..n], events[n])
  }

  // ----- it is what only the full tables still hold -----

  /** A job takes from the pruned tables what it finds there. */
  lemma MissingAfterJob(cfg: Settings, s: Tables, t: Tables, e: Event, uid: UserId, token: Nonce)
    requires Pruned(cfg, s, t, e.clk.now) && IsMaintenance(e.action)
    ensures Missing(Step(cfg, s, e).tables, t, uid, token)
            <==> ClearsToken(s, e, uid, token) || Missing(s, t, uid, token)
  {
    if uid in t.users { assert SameUser(cfg, s.users[uid], t.users[uid], e.clk.now); }
  }

  predicate ConfirmsSteadily(e: Event, token: Nonce) {
    e.action == VerifyEmail(Some(token)) && e.faults !! {ReadRow, CommitWork}
  }

  /** A confirmation takes a token from its unverified holder, and no other token from anyone. */
  lemma HoldsAfterConfirmation(cfg: Settings, t: Tables, e: Event, uid: UserId, token: Nonce)
    requires UniqueTokens(t) && e.action.VerifyEmail? && Holds(t.users, uid, token)
    requires !t.users[uid].IsEmailVerified()
    ensures Holds(Step(cfg, t, e).tables.users, uid, token) <==> !ConfirmsSteadily(e, token)
  {
    if e.action.token.Some? {
      var holder := Holder(t.users, e.action.token.value);
      assert e.action.token.value == token ==> holder == Some(uid);
    }
  }

  lemma ConfirmationAddsNoToken(cfg: Settings, t: Tables, e: Event, uid: UserId)
    requires e.action.VerifyEmail?
    ensures var users := Step(cfg, t, e).tables.users;
            && (uid in users <==> uid in t.users)
            && (uid in users ==> users[uid].tokenHash == t.users[uid].tokenHash || users[uid].tokenHash.None?)
    ensures !Step(cfg, t, e).response.Verification?
  {
  }

  predicate HeldUnverified(t: Tables, uid: UserId, token: Nonce) {
    uid in t.users && t.users[uid].tokenHash == Some(Digest(token)) ==> !t.users[uid].IsEmailVerified()
  }

  lemma TokensAreHeldOnce(cfg: Settings, events: seq<Event>, uid: UserId, token: Nonce)
    requires IsRun(cfg, events)
    ensures UniqueTokens(Run(cfg, events).tables) && UniqueTokens(Run(cfg, Keep(true, events)).tables)
    ensures HeldUnverified(Run(cfg, Keep(true, events)).tables, uid, token)
  {
    KeepStaysFresh(true, events);
    HashesAreUnique(cfg, events);
    HashesAreUnique(cfg, Keep(true, events));
    PendingRowShape(cfg, Keep(true, events), uid);
  }

  lemma MissingAfterConfirmation(cfg: Settings, s: Tables, t: Tables, e: Event, uid: UserId, token: Nonce)
    requires Pruned(cfg, s, t, e.clk.now) && UniqueTokens(s) && UniqueTokens(t) && e.action.VerifyEmail?
    requires HeldUnverified(t, uid, token)
    ensures Missing(Step(cfg, s, e).tables, Step(cfg, t, e).tables, uid, token)
            <==> Missing(s, t, uid, token) && !Supersedes(e, Step(cfg, s, e).response, uid, token)
  {
    ConfirmationAddsNoToken(cfg, s, e, uid);
    ConfirmationAddsNoToken(cfg, t, e, uid);
    if Holds(t.users, uid, token) {
      assert SameUser(cfg, s.users[uid], t.users[uid], e.clk.now);
      HoldsAfterConfirmation(cfg, t, e, uid, token);
      if Holds(s.users, uid, token) { HoldsAfterConfirmation(cfg, s, e, uid, token); }
    }
  }

  lemma MissingAfterOthers(cfg: Settings, s: Tables, t: Tables, e: Event, uid: UserId, token: Nonce)
    requires Pruned(cfg, s, t, e.clk.now) && !IsMaintenance(e.action) && !e.action.VerifyEmail?
    ensures Missing(Step(cfg, s, e).tables, Step(cfg, t, e).tables, uid, token)
            <==> Missing(s, t, uid, token) && !Supersedes(e, Step(cfg, s, e).response, uid, token)
  {
    match e.action
    case Register(_) => MissingAfterRegistration(cfg, s, t, e, uid, token);
    case RegisterTrusted(_) => MissingAfterRegistration(cfg, s, t, e, uid, token);
    case RequestVerification(_) => MissingAfterResend(cfg, s, t, e, uid, token);
    case Deactivate(_) =>
    case _ =>
      AccountsUntouched(cfg, s, e);
      AccountsUntouched(cfg, t, e);
  }

  lemma MissingAfterRegistration(cfg: Settings, s: Tables, t: Tables, e: Event, uid: UserId, token: Nonce)
    requires Pruned(cfg, s, t, e.clk.now) && (e.action.Register? || e.action.RegisterTrusted?)
    ensures Missing(Step(cfg, s, e).tables, Step(cfg, t, e).tables, uid, token)
            <==> Missing(s, t, uid, token) && !Supersedes(e, Step(cfg, s, e).response, uid, token)
  {
  }

  lemma MissingAfterResend(cfg: Settings, s: Tables, t: Tables, e: Event, uid: UserId, token: Nonce)
    requires Pruned(cfg, s, t, e.clk.now) && e.action.RequestVerification?
    ensures Missing(Step(cfg, s, e).tables, Step(cfg, t, e).tables, uid, token)
            <==> Missing(s, t, uid, token) && !Supersedes(e, Step(cfg, s, e).response, uid, token)
  {
    if e.action.uid in t.users { assert SameUser(cfg, s.users[e.action.uid], t.users[e.action.uid], e.clk.now); }
  }

  /** Missing from the pruned run, compared with the run without jobs, is what the run itself shows as cleared. */
  lemma {:induction false} MissingIsCleared(cfg: Settings, events: seq<Event>, uid: UserId, token: Nonce)
    requires Sound(cfg, events) && cfg.resendCooldown <= cfg.verificationTtl
    ensures Missing(Run(cfg, events).tables, Run(cfg, Keep(true, events)).tables, uid, token)
            <==> Cleared(cfg, events, uid, token)
  {
    if events != [] {
      var before, e := events[..|events| - 1], events[|events| - 1];
      TimedBefore(cfg, events);
      GenuineBefore(cfg, events);
      MissingIsCleared(cfg, before, uid, token);
      Simulation(cfg, true, before);
      var s, t := Run(cfg, before).tables, Run(cfg, Keep(true, before)).tables;
      TokensAreHeldOnce(cfg, before, uid, token);
      MissingStep(cfg, s, t, e, uid, token);
      if !Drops(true, e.action) { RunSnoc(cfg, Keep(true, before), e); }
    }
  }

  lemma MissingStep(cfg: Settings, s: Tables, t: Tables, e: Event, uid: UserId, token: Nonce)
    requires Pruned(cfg, s, t, e.clk.now) && UniqueTokens(s) && UniqueTokens(t) && HeldUnverified(t, uid, token)
    ensures var t' := if Drops(true, e.action) then t else Step(cfg, t, e).tables;
            Missing(Step(cfg, s, e).tables, t', uid, token)
            <==> ClearsToken(s, e, uid, token)
                 || (Missing(s, t, uid, token) && !Supersedes(e, Step(cfg, s, e).response, uid, token))
  {
    if IsMaintenance(e.action) {
      MissingAfterJob(cfg, s, t, e, uid, token);
    } else if e.action.VerifyEmail? {
      MissingAfterConfirmation(cfg, s, t, e, uid, token);
    } else {
      MissingAfterOthers(cfg, s, t, e, uid, token);
    }
  }

  lemma ExposedIsConfirmed(cfg: Settings, before: seq<Event>, e: Event)
    requires Sound(cfg, before) && cfg.resendCooldown <= cfg.verificationTtl
    ensures Exposes(Run(cfg, before).tables, Run(cfg, Keep(true, before)).tables, e.action, e.faults)
            <==> ConfirmsCleared(cfg, before, e)
  {
    if FailsToCommit(e.action, e.faults) {
      var s, t, token := Run(cfg, before).tables, Run(cfg, Keep(true, before)).tables, e.action.token.value;
      forall uid ensures Missing(s, t, uid, token) <==> Cleared(cfg, before, uid, token) {
        MissingIsCleared(cfg, before, uid, token);
      }
    }
  }

  lemma NeverConfirmsClearedGrows(cfg: Settings, events: seq<Event>)
    requires events != []
    ensures var before, e := events[..|events| - 1], events[|events| - 1];
            NeverConfirmsCleared(cfg, events) <==> NeverConfirmsCleared(cfg, before) && !ConfirmsCleared(cfg, before, e)
  {
    var before := events[..|events| - 1];
    assert forall n :: 0 <= n < |before| ==> before[..n] == events[..n] && before[n] == events[n];
  }

  lemma {:induction false} NeverExposedMeans(cfg: Settings, events: seq<Event>)
    requires Sound(cfg, events) && cfg.resendCooldown <= cfg.verificationTtl
    ensures NeverExposed(cfg, true, events) <==> NeverConfirmsCleared(cfg, events)
  {
    if events != [] {
      var before := events[..|events| - 1];
      TimedBefore(cfg, events);
      GenuineBefore(cfg, events);
      NeverExposedMeans(cfg, before);
      ExposedIsConfirmed(cfg, before, events[|events| - 1]);
      NeverConfirmsClearedGrows(cfg, events);
    }
  }

  /** For every run under a cooldown no longer than the TTL: deleting the clearing jobs with the prune jobs leaves every
      answer the same exactly if no confirmation whose commit fails presents a token that a job has cleared. */
  lemma ClearingUnobservableInRunIff(cfg: Settings, events: seq<Event>)
    requires Sound(cfg, events) && cfg.resendCooldown <= cfg.verificationTtl
    ensures Unobservable(cfg, true, events) <==> NeverConfirmsCleared(cfg, events)
  {
    UnobservableUnlessExposed(cfg, true, events);
    NeverExposedMeans(cfg, events);
  }

  // ----- for given settings -----

  function TestEvent(action: Action, at: Time, nonce: Nonce): Event { Event(action, Clock(at, at, at, at), nonce, {}) }

  /** Register, clear when the token has just run out, ask for another token. */
  function ClearedResend(cfg: Settings): seq<Event> {
    [TestEvent(Register(1), 0, 1)] + [TestEvent(ClearVerification, cfg.verificationTtl, 2)]
    + [TestEvent(RequestVerification(1), cfg.verificationTtl, 3)]
  }

  function PlainResend(cfg: Settings): seq<Event> {
    [TestEvent(Register(1), 0, 1)] + [TestEvent(RequestVerification(1), cfg.verificationTtl, 3)]
  }

  lemma Registration(cfg: Settings)
    ensures Run(cfg, [TestEvent(Register(1), 0, 1)]).tables
            == Tables(map[1 := Pending(cfg, NEW_USER, 0, 1)], map[], map[])
  {
    var e := TestEvent(Register(1), 0, 1);
    assert [] + [e] == [e];
    RunSnoc(cfg, [], e);
  }

  lemma ClearedResendIssues(cfg: Settings)
    ensures var log := Run(cfg, ClearedResend(cfg)).log;
            log[2].response == Verification(1, 3, cfg.verificationTtl + cfg.verificationTtl)
  {
    var e1, e2 := TestEvent(Register(1), 0, 1), TestEvent(ClearVerification, cfg.verificationTtl, 2);
    Registration(cfg);
    RunSnoc(cfg, [e1], e2);
    assert Run(cfg, [e1] + [e2]).tables.users == map[1 := NEW_USER];
    RunSnoc(cfg, [e1] + [e2], TestEvent(RequestVerification(1), cfg.verificationTtl, 3));
  }

  lemma PlainResendWaits(cfg: Settings)
    requires cfg.resendCooldown > cfg.verificationTtl
    ensures Run(cfg, PlainResend(cfg)).log[1].response == Done
  {
    Registration(cfg);
    RunSnoc(cfg, [TestEvent(Register(1), 0, 1)], TestEvent(RequestVerification(1), cfg.verificationTtl, 3));
  }

  lemma ClearedResendDiffers(cfg: Settings)
    requires cfg.Valid() && cfg.resendCooldown > cfg.verificationTtl
    ensures Sound(cfg, ClearedResend(cfg)) && NeverConfirmsCleared(cfg, ClearedResend(cfg))
    ensures !Unobservable(cfg, true, ClearedResend(cfg))
  {
    ClearedResendIssues(cfg);
    PlainResendWaits(cfg);
    var all := ClearedResend(cfg);
    ClearedRunKeeps(all, all[0], all[1], all[2]);
    var log := Run(cfg, all).log;
    assert log == log[..2] + [log[2]];
    VisibleGrows(true, log[..2], log[2]);
  }

  /** For given settings the clearing job is unobservable in all runs without such confirmations exactly when the resend
      cooldown is at most the token TTL. */
  lemma ClearingUnobservableIff(cfg: Settings)
    requires cfg.Valid()
    ensures (forall events ::
               Sound(cfg, events) && NeverConfirmsCleared(cfg, events) ==> Unobservable(cfg, true, events))
            <==> cfg.resendCooldown <= cfg.verificationTtl
  {
    if cfg.resendCooldown <= cfg.verificationTtl {
      forall events | Sound(cfg, events) && NeverConfirmsCleared(cfg, events) ensures Unobservable(cfg, true, events) {
        ClearingUnobservableInRunIff(cfg, events);
      }
    } else {
      ClearedResendDiffers(cfg);
    }
  }

  /** Register, clear when the token has just run out, confirm with a failing commit. */
  function FailingConfirmation(cfg: Settings): Event {
    TestEvent(VerifyEmail(Some(1)), cfg.verificationTtl, 3).(faults := {CommitWork})
  }

  function ClearedConfirmation(cfg: Settings): seq<Event> {
    [TestEvent(Register(1), 0, 1)] + [TestEvent(ClearVerification, cfg.verificationTtl, 2)] + [FailingConfirmation(cfg)]
  }

  lemma ClearedConfirmationRefused(cfg: Settings)
    ensures Run(cfg, ClearedConfirmation(cfg)).log[2]
            == Entry(FailingConfirmation(cfg), Failed(InvalidVerificationToken))
  {
    var e1, e2 := TestEvent(Register(1), 0, 1), TestEvent(ClearVerification, cfg.verificationTtl, 2);
    Registration(cfg);
    RunSnoc(cfg, [e1], e2);
    RunSnoc(cfg, [e1] + [e2], FailingConfirmation(cfg));
    assert Run(cfg, [e1] + [e2]).tables.users == map[1 := NEW_USER];
  }

  lemma PlainConfirmationFails(cfg: Settings)
    ensures Run(cfg, [TestEvent(Register(1), 0, 1)] + [FailingConfirmation(cfg)]).log[1].response == Failed(Unavailable)
  {
    var e1 := TestEvent(Register(1), 0, 1);
    Registration(cfg);
    RunSnoc(cfg, [e1], FailingConfirmation(cfg));
    assert Holds(Run(cfg, [e1]).tables.users, 1, 1);
  }

  /** Such a confirmation is possible whatever the settings: the failing commit is then answered differently. */
  lemma FailingConfirmationDiffers(cfg: Settings)
    requires cfg.Valid()
    ensures Sound(cfg, ClearedConfirmation(cfg)) && !Unobservable(cfg, true, ClearedConfirmation(cfg))
  {
    var all := ClearedConfirmation(cfg);
    ClearedConfirmationRefused(cfg);
    PlainConfirmationFails(cfg);
    ClearedRunKeeps(all, all[0], all[1], all[2]);
    var log := Run(cfg, all).log;
    assert log == log[..2] + [log[2]];
    VisibleGrows(true, log[..2], log[2]);
  }

  lemma ClearedRunKeeps(all: seq<Event>, e1: Event, e2: Event, e3: Event)
    requires all == [e1] + [e2] + [e3] && e2.action.ClearVerification?
    requires !IsMaintenance(e1.action) && !IsMaintenance(e3.action)
    ensures Keep(true, all) == [e1] + [e3]
  {
    assert all[..2] == [e1] + [e2] && ([e1] + [e2])[..1] == [e1] && [e1][..0] == [];
    assert Keep(true, [e1]) == [e1];
    assert Keep(true, all[..2]) == [e1];
  }
}
