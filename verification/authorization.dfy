/** Authorization codes over whole runs: a code is redeemed at most once, only by the request that its bindings and
    its PKCE verifier fit (sections 4.1.2 and 4.1.3 of RFC 6749, section 4.6 of RFC 7636). */
module Authorization {
  import opened Base
  import opened Security
  import opened Store
  import opened Credentials
  import opened Ownership
  import opened Pkce
  import Rotation

  predicate IssuesCode(x: Entry, code: Nonce) { x.event.action.IssueCode? && x.response == Code(code) }

  /** The request that a code was issued to, read off the history of answers. */
  ghost function IssueOf(log: seq<Entry>, code: Nonce): Option<Event> {
    if log == [] then None
    else
      var x := log[|log| - 1];
      if IssuesCode(x, code) then Some(x.event) else IssueOf(log[..|log| - 1], code)
  }

  predicate RedeemsCode(x: Entry, code: Nonce) {
    x.event.action.Exchange? && x.event.action.exchange.code == code && x.response.Tokens?
  }

  ghost function CodeRedemptions(log: seq<Entry>, code: Nonce): nat {
    if log == [] then 0
    else CodeRedemptions(log[..|log| - 1], code) + if RedeemsCode(log[|log| - 1], code) then 1 else 0
  }

  function CodeRowOf(t: Tables, code: Nonce): Option<CodeRow> {
    if Digest(code) in t.codes then Some(t.codes[Digest(code)]) else None
  }

  function CodeExpiry(cfg: Settings, issue: Event): Time { issue.clk.now + cfg.codeTtlSeconds * SECOND }

  function BoundRow(cfg: Settings, issue: Event, consumedAt: Option<Time>): CodeRow
    requires issue.action.IssueCode?
  {
    var request := issue.action.authorization;
    CodeRow(issue.action.uid, request.clientId, request.redirectUri, request.challenge, issue.clk.began,
            CodeExpiry(cfg, issue), consumedAt)
  }

  ghost predicate CodeEffect(cfg: Settings, e: Event, r: Response, code: Nonce, before: Option<CodeRow>,
                             after: Option<CodeRow>)
  {
    var x := Entry(e, r);
    || (IssuesCode(x, code) && e.nonce == code && after == Some(BoundRow(cfg, e, None)) && after.value.Constraints())
    || (&& RedeemsCode(x, code) && before.Some? && before.value.consumedAt.None? && e.clk.now < before.value.expiresAt
        && e.action.exchange.clientId == before.value.clientId
        && e.action.exchange.redirectUri == before.value.redirectUri
        && e.action.exchange.challenge == before.value.challenge
        && after == Some(before.value.(consumedAt := Some(e.clk.now))))
    || (&& !IssuesCode(x, code) && !RedeemsCode(x, code)
        && (after == before || (after.None? && before.Some? && before.value.expiresAt <= e.clk.now)))
  }

  lemma CodeEffects(cfg: Settings, t: Tables, e: Event, code: Nonce)
    ensures var o := Step(cfg, t, e);
            CodeEffect(cfg, e, o.response, code, CodeRowOf(t, code), CodeRowOf(o.tables, code))
  {
    match e.action
    case IssueCode(_, _, _) => IssueEffect(cfg, t, e, code);
    case Exchange(_) => ExchangeEffect(cfg, t, e, code);
    case PruneCodes =>
    case _ => CodesUntouched(cfg, t, e);
  }

  lemma IssueEffect(cfg: Settings, t: Tables, e: Event, code: Nonce)
    requires e.action.IssueCode?
    ensures var o := IssueAuthorizationCode(cfg, t, e.action.uid, e.action.passwordOk, e.action.authorization, e.clk,
                                            e.nonce, e.faults);
            CodeEffect(cfg, e, o.response, code, CodeRowOf(t, code), CodeRowOf(o.tables, code))
  {
  }

  lemma ExchangeEffect(cfg: Settings, t: Tables, e: Event, code: Nonce)
    requires e.action.Exchange?
    ensures var o := ExchangeCode(cfg, t, e.action.exchange, e.clk, e.nonce, e.faults);
            CodeEffect(cfg, e, o.response, code, CodeRowOf(t, code), CodeRowOf(o.tables, code))
  {
  }

  /** The row of a code keeps the bindings of the request it was issued to and records whether it was redeemed. */
  ghost predicate CodeOk(cfg: Settings, row: Option<CodeRow>, issue: Option<Event>, n: nat) {
    && (issue.Some? ==> issue.value.action.IssueCode?)
    && (issue.None? ==> row.None? && n == 0)
    && n <= 1
    && (row.Some? ==>
        && row.value == BoundRow(cfg, issue.value, row.value.consumedAt)
        && n == if row.value.consumedAt.Some? then 1 else 0)
  }

  /** A row that is gone had expired by `bound`. */
  ghost predicate DroppedOnlyAfterExpiry(cfg: Settings, row: Option<CodeRow>, issue: Option<Event>, bound: Time) {
    row.None? && issue.Some? ==> CodeExpiry(cfg, issue.value) <= bound
  }

  lemma CodeStep(cfg: Settings, log: seq<Entry>, e: Event, r: Response, code: Nonce, before: Option<CodeRow>,
                 after: Option<CodeRow>, bound: Time)
    requires CodeOk(cfg, before, IssueOf(log, code), CodeRedemptions(log, code))
    requires CodeEffect(cfg, e, r, code, before, after)
    requires e.nonce == code ==> IssueOf(log, code).None?
    ensures var log' := log + [Entry(e, r)];
            && CodeOk(cfg, after, IssueOf(log', code), CodeRedemptions(log', code))
            && (DroppedOnlyAfterExpiry(cfg, before, IssueOf(log, code), bound) && bound <= e.clk.now ==>
                DroppedOnlyAfterExpiry(cfg, after, IssueOf(log', code), e.clk.now))
  {
    assert (log + [Entry(e, r)])[..|log|] == log;
  }

  lemma {:induction false} IssueIsLogged(cfg: Settings, events: seq<Event>, code: Nonce)
    requires IssueOf(Run(cfg, events).log, code).Some?
    ensures exists i ::
              0 <= i < |events| && events[i].nonce == code && IssueOf(Run(cfg, events).log, code) == Some(events[i])
  {
    var before, e := events[..|events| - 1], events[|events| - 1];
    var h := Run(cfg, before);
    var o := Step(cfg, h.tables, e);
    var x := Entry(e, o.response);
    assert Run(cfg, events).log == h.log + [x] && (h.log + [x])[..|h.log|] == h.log;
    CodeEffects(cfg, h.tables, e, code);
    if !IssuesCode(Entry(e, o.response), code) {
      IssueIsLogged(cfg, before, code);
      var i :| 0 <= i < |before| && before[i].nonce == code && IssueOf(h.log, code) == Some(before[i]);
      assert events[i] == before[i];
    }
  }

  lemma {:induction false} CodeHistory(cfg: Settings, events: seq<Event>, code: Nonce)
    requires FreshNonces(events)
    ensures var h := Run(cfg, events);
            && CodeOk(cfg, CodeRowOf(h.tables, code), IssueOf(h.log, code), CodeRedemptions(h.log, code))
            && (MonotoneClock(events) && events != [] ==>
                DroppedOnlyAfterExpiry(cfg, CodeRowOf(h.tables, code), IssueOf(h.log, code),
                                       events[|events| - 1].clk.now))
  {
    if events != [] {
      var before, e := events[..|events| - 1], events[|events| - 1];
      var h := Run(cfg, before);
      var o := Step(cfg, h.tables, e);
      CodeHistory(cfg, before, code);
      CodeEffects(cfg, h.tables, e, code);
      if IssueOf(h.log, code).Some? { IssueIsLogged(cfg, before, code); }
      var bound := if before == [] then e.clk.now else before[|before| - 1].clk.now;
      CodeStep(cfg, h.log, e, o.response, code, CodeRowOf(h.tables, code), CodeRowOf(o.tables, code), bound);
    }
  }

  /** No authorization code is redeemed twice in any run. */
  lemma RedeemedAtMostOnce(cfg: Settings, events: seq<Event>, code: Nonce)
    requires FreshNonces(events)
    ensures CodeRedemptions(Run(cfg, events).log, code) <= 1
  {
    CodeHistory(cfg, events, code);
  }

  lemma NonceNamesNoCode(cfg: Settings, events: seq<Event>, nonce: Nonce)
    requires FreshNonces(events) && forall x <- events :: x.nonce != nonce
    ensures Digest(nonce) !in Run(cfg, events).tables.codes
  {
    CodeHistory(cfg, events, nonce);
    if IssueOf(Run(cfg, events).log, nonce).Some? { IssueIsLogged(cfg, events, nonce); }
  }

  /** A code is issued exactly to the configured client, for one of its redirect URIs and a blank scope, with good
      credentials of an active and verified account; otherwise nothing changes. */
  lemma CodeIssuedIff(cfg: Settings, events: seq<Event>, e: Event)
    requires IsRun(cfg, events) && e.action.IssueCode? && forall x <- events :: x.nonce != e.nonce
    ensures var t, request := Run(cfg, events).tables, e.action.authorization;
            var o := Step(cfg, t, e);
            && (o.response == Code(e.nonce) <==>
                && request.clientId == cfg.clientId && request.redirectUri in cfg.redirectUris && request.blankScope
                && VerifiedUser(t, e.action.uid) && t.users[e.action.uid].isActive && e.action.passwordOk
                && |request.challenge| == 43 && request.redirectUri != ""
                && e.clk.began < e.clk.now + cfg.codeTtlSeconds * 1_000_000
                && e.faults !! {ReadRow, WriteRow, CommitWork})
            && (o.response == Code(e.nonce) ==>
                && o.tables.users == t.users && o.tables.sessions == t.sessions
                && o.tables.codes.Keys == (set h | h in t.codes && t.codes[h].expiresAt > e.clk.now) + {Digest(e.nonce)}
                && (forall h <- o.tables.codes ::
                      h in t.codes && h != Digest(e.nonce) ==> o.tables.codes[h] == t.codes[h])
                && o.tables.codes[Digest(e.nonce)]
                   == CodeRow(e.action.uid, request.clientId, request.redirectUri, request.challenge, e.clk.began,
                              e.clk.now + cfg.codeTtlSeconds * 1_000_000, None))
            && (o.response != Code(e.nonce) ==> o.response.Failed? && o.tables == t)
  {
    NonceNamesNoCode(cfg, events, e.nonce);
  }

  /** The request fits the one that the code was issued to. */
  ghost predicate Fits(cfg: Settings, issue: Event, request: TokenRequest, now: Time)
    requires issue.action.IssueCode?
  {
    var bound := issue.action.authorization;
    && request.clientId == cfg.clientId == bound.clientId && request.redirectUri == bound.redirectUri
    && request.challenge == bound.challenge
    && issue.clk.began <= now < CodeExpiry(cfg, issue)
  }

  ghost predicate Consumable(cfg: Settings, t: Tables, request: TokenRequest, now: Time) {
    && request.clientId == cfg.clientId && Redeemable(t.codes, request, now)
    && t.codes[Digest(request.code)].(consumedAt := Some(now)).Constraints()
  }

  lemma ConsumableIff(cfg: Settings, events: seq<Event>, request: TokenRequest, now: Time)
    requires IsRun(cfg, events) && MonotoneClock(events) && forall x <- events :: x.clk.now <= now
    ensures var h := Run(cfg, events);
            var issue := IssueOf(h.log, request.code);
            && (Consumable(cfg, h.tables, request, now) <==>
                && issue.Some? && issue.value.action.IssueCode? && Fits(cfg, issue.value, request, now)
                && CodeRedemptions(h.log, request.code) == 0)
            && (Consumable(cfg, h.tables, request, now) ==>
                h.tables.codes[Digest(request.code)].userId == issue.value.action.uid)
  {
    CodeHistory(cfg, events, request.code);
    CodeConstraints(cfg, events, request.code);
  }

  /** Under a clock that never goes back, an exchange is answered with tokens exactly when its code was issued to a
      fitting request and never redeemed before, its owner is active, there is time for a session and no statement
      fails. */
  lemma ExchangeAcceptedIff(cfg: Settings, events: seq<Event>, e: Event)
    requires IsRun(cfg, events) && MonotoneClock(events) && e.action.Exchange? && OrderedReadings(e.clk)
    requires forall x <- events :: x.nonce != e.nonce && x.clk.now <= e.clk.now
    ensures var h := Run(cfg, events);
            var request := e.action.exchange;
            var issue := IssueOf(h.log, request.code);
            Step(cfg, h.tables, e).response.Tokens? <==>
              && issue.Some? && issue.value.action.IssueCode? && Fits(cfg, issue.value, request, e.clk.now)
              && CodeRedemptions(h.log, request.code) == 0
              && issue.value.action.uid in h.tables.users && h.tables.users[issue.value.action.uid].isActive
              && LoginHasTime(cfg, e.clk)
              && e.faults !! {WriteRow, LoadUser, CommitWork}
  {
    ConsumableIff(cfg, events, e.action.exchange, e.clk.now);
    Rotation.RotationChain(cfg, events, e.nonce);
    ExchangeSucceedsIff(cfg, Run(cfg, events).tables, e);
  }

  lemma ExchangeSucceedsIff(cfg: Settings, t: Tables, e: Event)
    requires cfg.Valid() && e.action.Exchange? && OrderedReadings(e.clk) && e.nonce !in t.sessions
    ensures var request := e.action.exchange;
            ExchangeCode(cfg, t, request, e.clk, e.nonce, e.faults).response.Tokens? <==>
              && Consumable(cfg, t, request, e.clk.now)
              && (var uid := t.codes[Digest(request.code)].userId; uid in t.users && t.users[uid].isActive)
              && LoginHasTime(cfg, e.clk)
              && e.faults !! {WriteRow, LoadUser, CommitWork}
  {
    var h := Digest(e.action.exchange.code);
    if h in t.codes { StagedRowIsSound(cfg, t.codes[h].userId, e.clk, e.nonce); }
  }

  lemma {:induction false} CodeConstraints(cfg: Settings, events: seq<Event>, code: Nonce)
    ensures var row := CodeRowOf(Run(cfg, events).tables, code);
            row.Some? ==> row.value.(consumedAt := None).Constraints()
  {
    if events != [] {
      var before, e := events[..|events| - 1], events[|events| - 1];
      CodeConstraints(cfg, before, code);
      CodeEffects(cfg, Run(cfg, before).tables, e, code);
    }
  }

  /** A code issued for the challenge of one verifier is worthless to whoever presents a verifier of another digest. */
  lemma OnlyTheVerifierRedeems(cfg: Settings, events: seq<Event>, e: Event, committed: seq<byte>, presented: seq<byte>)
    requires IsRun(cfg, events) && e.action.Exchange? && |committed| == DIGEST_LENGTH
    requires var issue := IssueOf(Run(cfg, events).log, e.action.exchange.code);
             issue.Some? ==> issue.value.action.IssueCode?
                             && issue.value.action.authorization.challenge == CreateS256Challenge(committed)
    requires e.action.exchange.challenge == CreateS256Challenge(presented)
    ensures Step(cfg, Run(cfg, events).tables, e).response.Tokens? ==> presented == committed
  {
    var h, code := Run(cfg, events), e.action.exchange.code;
    CodeHistory(cfg, events, code);
    CodeEffects(cfg, h.tables, e, code);
    ChallengeForm(committed, presented);
  }
}
