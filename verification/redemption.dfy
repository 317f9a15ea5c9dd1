/** What the rotation chain means for clients: which token is redeemable, how often, until when, and for how long a
    revocation lasts. */
module Redemption {
  import opened Base
  import opened Security
  import opened Store
  import opened Credentials
  import opened Ownership
  import opened Rotation

  // ----- how often -----

  /** How often the token at position i of a chain may have been redeemed: the current one never, its predecessor
      once, older ones twice, or once without a grace period. */
  function Allowance(cfg: Settings, length: nat, i: nat): nat {
    if i + 1 == length then 0 else if i + 2 == length || cfg.reuseGrace == 0 then 1 else 2
  }

  ghost predicate RedeemInv(cfg: Settings, c: seq<Issue>, token: RefreshToken, n: nat) {
    && ((forall i :: 0 <= i < |c| ==> c[i].pair.refresh != token) ==> n == 0)
    && (forall i :: 0 <= i < |c| && c[i].pair.refresh == token ==> n <= Allowance(cfg, |c|, i))
  }

  lemma RedeemInvGrows(cfg: Settings, used: set<Nonce>, sid: Nonce, c: seq<Issue>, added: Issue, token: RefreshToken,
                       n: nat, redeemed: bool)
    requires cfg.Valid() && ChainOk(cfg, used, sid, c) && added.pair.refresh.jti !in used
    requires RedeemInv(cfg, c, token, n)
    requires redeemed ==>
               || (c != [] && token == c[|c| - 1].pair.refresh)
               || (|c| > 1 && token == c[|c| - 2].pair.refresh && cfg.reuseGrace > 0)
    ensures RedeemInv(cfg, c + [added], token, n + if redeemed then 1 else 0)
  {
    var c' := c + [added];
    var n' := n + if redeemed then 1 else 0;
    assert forall i :: 0 <= i < |c| ==> c'[i] == c[i];
    assert c'[|c|] == added;
    forall i | 0 <= i < |c'| && c'[i].pair.refresh == token ensures n' <= Allowance(cfg, |c'|, i) {
      forall k | 0 <= k < |c| ensures c[k].pair.refresh.jti in used { assert IssueOk(cfg, used, sid, c, k); }
    }
  }

  /** A redeemed token is the last of its chain, or its predecessor under a grace period. */
  lemma RedeemedAtTheEnd(cfg: Settings, t: Tables, used: set<Nonce>, c: seq<Issue>, e: Event, o: Outcome,
                         token: RefreshToken)
    requires cfg.Valid() && SessionInv(cfg, t, used, c, token.sid) && SessionEffect(cfg, t, e, o)
    requires Redeems(Entry(e, o.response), token)
    ensures IssuesFor(Entry(e, o.response), token.sid) && c != []
    ensures token == c[|c| - 1].pair.refresh || (|c| > 1 && token == c[|c| - 2].pair.refresh && cfg.reuseGrace > 0)
  {
    PairKeepsSession(cfg, t, e, o);
  }

  lemma RedeemInvStep(cfg: Settings, t: Tables, log: seq<Entry>, e: Event, o: Outcome, token: RefreshToken)
    requires cfg.Valid() && SessionInv(cfg, t, Nonces(log), Chain(log, token.sid), token.sid)
    requires e.nonce !in Nonces(log) && SessionEffect(cfg, t, e, o)
    requires RedeemInv(cfg, Chain(log, token.sid), token, Redemptions(log, token))
    ensures var log' := log + [Entry(e, o.response)];
            RedeemInv(cfg, Chain(log', token.sid), token, Redemptions(log', token))
  {
    var x, c := Entry(e, o.response), Chain(log, token.sid);
    assert (log + [x])[..|log|] == log;
    HistoryGrows(log, x, token.sid);
    if Redeems(x, token) { RedeemedAtTheEnd(cfg, t, Nonces(log), c, e, o, token); }
    if IssuesFor(x, token.sid) {
      RedeemInvGrows(cfg, Nonces(log), token.sid, c, Issue(x.response.pair, e.clk.now), token,
                     Redemptions(log, token), Redeems(x, token));
    }
  }

  lemma {:induction false} RedeemInvHolds(cfg: Settings, events: seq<Event>, token: RefreshToken)
    requires IsRun(cfg, events)
    ensures var h := Run(cfg, events); RedeemInv(cfg, Chain(h.log, token.sid), token, Redemptions(h.log, token))
  {
    if events != [] {
      var before, e := events[..|events| - 1], events[|events| - 1];
      var h := Run(cfg, before);
      RedeemInvHolds(cfg, before, token);
      RotationChain(cfg, before, token.sid);
      NoncesOfRun(cfg, events);
      SessionEffects(cfg, h.tables, e);
      RedeemInvStep(cfg, h.tables, h.log, e, Step(cfg, h.tables, e), token);
    }
  }

  /** In any run each refresh token is redeemed at most twice, and at most once when the grace period is zero. */
  lemma RedeemedAtMostTwice(cfg: Settings, events: seq<Event>, token: RefreshToken)
    requires IsRun(cfg, events)
    ensures Redemptions(Run(cfg, events).log, token) <= if cfg.reuseGrace == 0 then 1 else 2
  {
    RedeemInvHolds(cfg, events, token);
  }

  ghost function SessionRefreshes(log: seq<Entry>, sid: Nonce): nat {
    if log == [] then 0
    else
      var x := log[|log| - 1];
      SessionRefreshes(log[..|log| - 1], sid)
      + if x.event.action.Refresh? && IssuesFor(x, sid) then 1 else 0
  }

  /** Conservation: every pair of a session but the first pays for exactly one answered refresh. */
  lemma {:induction false} OnePairPerRefresh(cfg: Settings, events: seq<Event>, sid: Nonce)
    requires IsRun(cfg, events)
    ensures var log := Run(cfg, events).log;
            |Chain(log, sid)| == SessionRefreshes(log, sid) + if Chain(log, sid) == [] then 0 else 1
  {
    if events != [] {
      var before, e := events[..|events| - 1], events[|events| - 1];
      OnePairPerRefresh(cfg, before, sid);
      RotationChain(cfg, before, sid);
      NoncesOfRun(cfg, events);
      var h := Run(cfg, before);
      var o := Step(cfg, h.tables, e);
      var x := Entry(e, o.response);
      assert Run(cfg, events).log == h.log + [x] && (h.log + [x])[..|h.log|] == h.log;
      SessionEffects(cfg, h.tables, e);
      PairKeepsSession(cfg, h.tables, e, o);
    }
  }

  // ----- which token, until when -----

  /** The last token of a chain, or its predecessor within the grace period after the last was issued. */
  ghost predicate InWindow(cfg: Settings, c: seq<Issue>, token: RefreshToken, now: Time) {
    && c != []
    && var last := c[|c| - 1];
       || token == last.pair.refresh
       || (|c| > 1 && token == c[|c| - 2].pair.refresh && cfg.reuseGrace > 0 && now <= last.at + cfg.reuseGrace)
  }

  /** A whole second is left before the deadline, and the new expiry lies after the readings that it is checked
      against: the decoding of the new token and the row's `created_at`. */
  ghost predicate HasTime(cfg: Settings, row: SessionRow, clk: Clock) {
    var expiry := FloorSecond(Min(clk.now + cfg.RefreshLifetime(), row.absoluteExpiresAt));
    clk.now + SECOND <= row.absoluteExpiresAt && clk.recheck < expiry && row.createdAt < expiry
  }

  /** Recognising a token by its hash is the same as finding it at the end of the chain. */
  lemma HashesNameTheChain(cfg: Settings, t: Tables, used: set<Nonce>, c: seq<Issue>, token: RefreshToken, now: Time)
    requires cfg.Valid() && SessionInv(cfg, t, used, c, token.sid) && token.sid in t.sessions
    ensures var row := t.sessions[token.sid];
            && (InWindow(cfg, c, token, now) <==> IsCurrent(row, token) || IsRecoverablePrevious(cfg, row, token, now))
            && (InWindow(cfg, c, token, now) ==> token.sub == UserSubject(row.userId))
  {
    assert IssueOk(cfg, used, token.sid, c, |c| - 1);
    if |c| > 1 { assert IssueOk(cfg, used, token.sid, c, |c| - 2); }
  }

  lemma RotationSucceedsIff(cfg: Settings, t: Tables, e: Event, sid: Nonce)
    requires cfg.Valid() && OrderedReadings(e.clk)
    requires sid in t.sessions && t.sessions[sid].Constraints() && VerifiedUser(t, t.sessions[sid].userId)
    ensures RotateSession(cfg, t, sid, e.clk, e.nonce, e.faults).response.Tokens? <==>
              && t.users[t.sessions[sid].userId].isActive
              && HasTime(cfg, t.sessions[sid], e.clk)
              && e.faults !! {LoadUser, CommitWork}
  {
    var row := t.sessions[sid];
    PairWithinDeadline(cfg, UserSubject(row.userId), sid, e.clk.now, row.absoluteExpiresAt, e.nonce);
  }

  lemma RefreshSucceedsIff(cfg: Settings, t: Tables, e: Event)
    requires cfg.Valid() && OrderedReadings(e.clk) && e.action.Refresh? && e.action.presented.Signed?
    requires var sid := e.action.presented.token.sid;
             sid in t.sessions && t.sessions[sid].Constraints() && VerifiedUser(t, t.sessions[sid].userId)
    ensures var token := e.action.presented.token;
            var row := t.sessions[token.sid];
            Step(cfg, t, e).response.Tokens? <==>
              && DecodeRefreshToken(e.action.presented, e.clk.arrive).Ok?
              && token.sub == UserSubject(row.userId)
              && (IsCurrent(row, token) || IsRecoverablePrevious(cfg, row, token, e.clk.now))
              && row.IsActive(e.clk.now) && t.users[row.userId].isActive
              && HasTime(cfg, row, e.clk)
              && e.faults !! {ReadRow, LoadUser, CommitWork}
  {
    RotationSucceedsIff(cfg, t, e, e.action.presented.token.sid);
  }

  /** At every reachable state a refresh is answered with a new pair exactly when the token still decodes, is the last
      of its chain or in the grace window, and the session and its owner are in service. */
  lemma RefreshAcceptedIff(cfg: Settings, events: seq<Event>, e: Event)
    requires IsRun(cfg, events) && e.action.Refresh? && e.action.presented.Signed? && OrderedReadings(e.clk)
    requires e.action.presented.token.sid in Run(cfg, events).tables.sessions
    ensures var h := Run(cfg, events);
            var token := e.action.presented.token;
            && VerifiedUser(h.tables, h.tables.sessions[token.sid].userId)
            && (Step(cfg, h.tables, e).response.Tokens? <==>
                && DecodeRefreshToken(e.action.presented, e.clk.arrive).Ok?
                && InWindow(cfg, Chain(h.log, token.sid), token, e.clk.now)
                && h.tables.sessions[token.sid].IsActive(e.clk.now)
                && h.tables.users[h.tables.sessions[token.sid].userId].isActive
                && HasTime(cfg, h.tables.sessions[token.sid], e.clk)
                && e.faults !! {ReadRow, LoadUser, CommitWork})
  {
    var h, token := Run(cfg, events), e.action.presented.token;
    RotationChain(cfg, events, token.sid);
    OwnersStayVerified(cfg, events);
    HashesNameTheChain(cfg, h.tables, Nonces(h.log), Chain(h.log, token.sid), token, e.clk.now);
    RefreshSucceedsIff(cfg, h.tables, e);
  }

  lemma AcceptedTokenIsNamed(cfg: Settings, t: Tables, e: Event)
    requires e.action.Refresh? && e.action.presented.Signed? && Step(cfg, t, e).response.Tokens?
    ensures var token := e.action.presented.token;
            && token.sid in t.sessions
            && (IsCurrent(t.sessions[token.sid], token)
                || IsRecoverablePrevious(cfg, t.sessions[token.sid], token, e.clk.now))
  {
  }

  /** Positions of a chain are told apart by their tokens. */
  lemma WindowIsTheEnd(cfg: Settings, used: set<Nonce>, sid: Nonce, c: seq<Issue>, k: nat, now: Time)
    requires ChainOk(cfg, used, sid, c) && k + 1 < |c| && InWindow(cfg, c, c[k].pair.refresh, now)
    ensures k + 2 == |c| && cfg.reuseGrace > 0 && now <= c[k + 1].at + cfg.reuseGrace
  {
  }

  /** Token k of a session is never accepted later than the grace period after token k + 1 was issued. */
  lemma LateUseBound(cfg: Settings, events: seq<Event>, e: Event, k: nat)
    requires IsRun(cfg, events) && e.action.Refresh? && e.action.presented.Signed?
    requires Step(cfg, Run(cfg, events).tables, e).response.Tokens?
    requires var c := Chain(Run(cfg, events).log, e.action.presented.token.sid);
             k + 1 < |c| && c[k].pair.refresh == e.action.presented.token
    ensures var c := Chain(Run(cfg, events).log, e.action.presented.token.sid);
            k + 2 == |c| && cfg.reuseGrace > 0 && e.clk.now <= c[k + 1].at + cfg.reuseGrace
  {
    var h, token := Run(cfg, events), e.action.presented.token;
    var c := Chain(h.log, token.sid);
    RotationChain(cfg, events, token.sid);
    AcceptedTokenIsNamed(cfg, h.tables, e);
    HashesNameTheChain(cfg, h.tables, Nonces(h.log), c, token, e.clk.now);
    WindowIsTheEnd(cfg, Nonces(h.log), token.sid, c, k, e.clk.now);
  }

  /** A client that lost the answer of a refresh and retries inside a positive grace, with no refresh in between,
      always gets a new current token, however long the request waits, as long as its last reading leaves a second of
      the session and of the new token. */
  lemma LostAnswerIsRecovered(cfg: Settings, events: seq<Event>, e: Event)
    requires IsRun(cfg, events) && e.action.Refresh? && e.action.presented.Signed?
    requires e.faults == {} && OrderedReadings(e.clk)
    requires var h := Run(cfg, events);
             var token := e.action.presented.token;
             var c := Chain(h.log, token.sid);
             && |c| > 1 && token == c[|c| - 2].pair.refresh
             && cfg.reuseGrace > 0 && e.clk.now <= c[|c| - 1].at + cfg.reuseGrace
             && DecodeRefreshToken(Signed(token), e.clk.arrive).Ok?
             && token.sid in h.tables.sessions && h.tables.sessions[token.sid].IsActive(e.clk.now)
             && e.clk.recheck + SECOND <= Min(e.clk.now + cfg.RefreshLifetime(), Deadline(cfg, c))
             && h.tables.sessions[token.sid].createdAt <= e.clk.recheck
             && VerifiedUser(h.tables, h.tables.sessions[token.sid].userId)
             && h.tables.users[h.tables.sessions[token.sid].userId].isActive
    ensures var h := Run(cfg, events);
            var o := Step(cfg, h.tables, e);
            var sid := e.action.presented.token.sid;
            && o.response.Tokens? && sid in o.tables.sessions
            && o.tables.sessions[sid].tokenHash == Digest(o.response.pair.refresh)
            && o.tables.sessions[sid].previousTokenHash == Some(h.tables.sessions[sid].tokenHash)
  {
    var c := Chain(Run(cfg, events).log, e.action.presented.token.sid);
    RotationChain(cfg, events, e.action.presented.token.sid);
    FloorSecondMonotone(e.clk.recheck, Min(e.clk.now + cfg.RefreshLifetime(), Deadline(cfg, c)));
    RefreshAcceptedIff(cfg, events, e);
    SessionEffects(cfg, Run(cfg, events).tables, e);
  }

  // ----- the deadline -----

  /** Pair i of a chain carries the second of its issue, and both its tokens end at their lifetime or at the deadline,
      whichever comes first, in whole seconds. */
  ghost predicate EndsByDeadline(cfg: Settings, t: Tables, c: seq<Issue>, sid: Nonce, i: nat)
    requires i < |c|
  {
    var pair, deadline := c[i].pair, c[0].at + cfg.absoluteTtl;
    && pair.access.exp == FloorSecond(Min(c[i].at + cfg.AccessLifetime(), deadline)) <= deadline
    && pair.refresh.exp == FloorSecond(Min(c[i].at + cfg.RefreshLifetime(), deadline)) <= deadline
    && pair.access.iat == pair.refresh.iat == FloorSecond(c[i].at)
    && (sid in t.sessions ==> t.sessions[sid].absoluteExpiresAt == deadline)
  }

  /** Every access and refresh token of a session ends by the deadline that was fixed at login. */
  lemma TokensEndByDeadline(cfg: Settings, events: seq<Event>, sid: Nonce, i: nat)
    requires IsRun(cfg, events) && i < |Chain(Run(cfg, events).log, sid)|
    ensures var h := Run(cfg, events); EndsByDeadline(cfg, h.tables, Chain(h.log, sid), sid, i)
  {
    RotationChain(cfg, events, sid);
    var h := Run(cfg, events);
    ChainEnds(cfg, h.tables, Nonces(h.log), Chain(h.log, sid), sid, i);
  }

  lemma ChainEnds(cfg: Settings, t: Tables, used: set<Nonce>, c: seq<Issue>, sid: Nonce, i: nat)
    requires SessionInv(cfg, t, used, c, sid) && i < |c|
    ensures EndsByDeadline(cfg, t, c, sid, i)
  {
    assert IssueOk(cfg, used, sid, c, i);
  }

  /** An issued token decodes, to itself, exactly from the second in which it was issued until its expiry. */
  lemma IssuedTokenDecodesIff(cfg: Settings, events: seq<Event>, sid: Nonce, i: nat, at: Time)
    requires IsRun(cfg, events) && i < |Chain(Run(cfg, events).log, sid)|
    ensures var c := Chain(Run(cfg, events).log, sid);
            var r := DecodeRefreshToken(Signed(c[i].pair.refresh), at);
            var end := FloorSecond(Min(c[i].at + cfg.RefreshLifetime(), Deadline(cfg, c)));
            && (r.Ok? <==> FloorSecond(c[i].at) <= at < end)
            && r == if r.Ok? then Ok(c[i].pair.refresh) else Err(InvalidRefreshToken)
  {
    RotationChain(cfg, events, sid);
    var log := Run(cfg, events).log;
    assert IssueOk(cfg, Nonces(log), sid, Chain(log, sid), i);
  }

  lemma {:induction false} ChainIsNotFromTheFuture(log: seq<Entry>, sid: Nonce, bound: Time)
    requires forall i :: 0 <= i < |log| ==> log[i].event.clk.now <= bound
    ensures forall i :: 0 <= i < |Chain(log, sid)| ==> Chain(log, sid)[i].at <= bound
  {
    if log != [] {
      ChainIsNotFromTheFuture(log[..|log| - 1], sid, bound);
    }
  }

  lemma ExpiryStep(cfg: Settings, t: Tables, used: set<Nonce>, c: seq<Issue>, e: Event, o: Outcome, sid: Nonce)
    requires cfg.Valid() && SessionInv(cfg, t, used, c, sid) && e.nonce !in used && SessionEffect(cfg, t, e, o)
    requires forall i :: 0 <= i < |c| ==> c[i].at <= e.clk.now
    requires sid in t.sessions && sid in o.tables.sessions
    ensures t.sessions[sid].expiresAt <= o.tables.sessions[sid].expiresAt
    ensures t.sessions[sid].absoluteExpiresAt == o.tables.sessions[sid].absoluteExpiresAt
  {
    if Rotates(cfg, t, e, o) && e.action.presented.token.sid == sid {
      var deadline := t.sessions[sid].absoluteExpiresAt;
      PairWithinDeadline(cfg, UserSubject(t.sessions[sid].userId), sid, e.clk.now, deadline, e.nonce);
      FloorSecondMonotone(Min(c[|c| - 1].at + cfg.RefreshLifetime(), deadline),
                          Min(e.clk.now + cfg.RefreshLifetime(), deadline));
    }
  }

  /** Session ids are never used again: a row that exists now, for an id drawn before, existed before. */
  lemma RowsAreNotReborn(cfg: Settings, t: Tables, used: set<Nonce>, e: Event, o: Outcome, sid: Nonce)
    requires SessionEffect(cfg, t, e, o) && e.nonce !in used && sid in used && sid in o.tables.sessions
    ensures sid in t.sessions
  {
  }

  lemma {:induction false} NoncesOfPrefix(cfg: Settings, events: seq<Event>, n: nat)
    requires n <= |events|
    ensures Nonces(Run(cfg, events[..n]).log) <= Nonces(Run(cfg, events).log)
  {
    RunPrefix(cfg, events, n);
    var log := Run(cfg, events).log;
    assert forall i :: 0 <= i < n ==> log[..n][i] == log[i];
  }

  lemma ExpiryOfLastStep(cfg: Settings, events: seq<Event>, sid: Nonce)
    requires IsRun(cfg, events) && MonotoneClock(events) && events != []
    requires sid in Nonces(Run(cfg, events[..|events| - 1]).log) && sid in Run(cfg, events).tables.sessions
    ensures var before, after := Run(cfg, events[..|events| - 1]).tables.sessions, Run(cfg, events).tables.sessions;
            sid in before && before[sid].expiresAt <= after[sid].expiresAt
            && before[sid].absoluteExpiresAt == after[sid].absoluteExpiresAt
  {
    var before, e := events[..|events| - 1], events[|events| - 1];
    var h := Run(cfg, before);
    RotationChain(cfg, before, sid);
    NoncesOfRun(cfg, events);
    ChainIsNotFromTheFuture(h.log, sid, e.clk.now);
    SessionEffects(cfg, h.tables, e);
    RowsAreNotReborn(cfg, h.tables, Nonces(h.log), e, Step(cfg, h.tables, e), sid);
    ExpiryStep(cfg, h.tables, Nonces(h.log), Chain(h.log, sid), e, Step(cfg, h.tables, e), sid);
  }

  lemma KnownBeforeLastStep(cfg: Settings, events: seq<Event>, n: nat, sid: Nonce)
    requires IsRun(cfg, events) && n < |events| && sid in Run(cfg, events[..n]).tables.sessions
    ensures sid in Nonces(Run(cfg, events[..|events| - 1]).log)
  {
    var before := events[..|events| - 1];
    assert before[..n] == events[..n];
    RotationChain(cfg, events[..n], sid);
    NoncesOfPrefix(cfg, before, n);
  }

  /** Under a clock that never goes back, a session's expiry never moves backwards, and its deadline never at all. */
  lemma {:induction false} ExpiryNeverMovesBack(cfg: Settings, events: seq<Event>, n: nat, sid: Nonce)
    requires IsRun(cfg, events) && MonotoneClock(events) && n <= |events|
    requires sid in Run(cfg, events[..n]).tables.sessions && sid in Run(cfg, events).tables.sessions
    ensures var earlier := Run(cfg, events[..n]).tables.sessions[sid];
            var later := Run(cfg, events).tables.sessions[sid];
            earlier.expiresAt <= later.expiresAt && earlier.absoluteExpiresAt == later.absoluteExpiresAt
    decreases |events|
  {
    if n == |events| {
      assert events[..n] == events;
    } else {
      var before := events[..|events| - 1];
      assert before[..n] == events[..n];
      KnownBeforeLastStep(cfg, events, n, sid);
      ExpiryOfLastStep(cfg, events, sid);
      ExpiryNeverMovesBack(cfg, before, n, sid);
    }
  }

  // ----- revocation -----

  lemma FailedRefreshEffect(cfg: Settings, t: Tables, e: Event)
    requires e.action.Refresh? && VerifiedOwners(t)
    requires Step(cfg, t, e).response.Failed?
    ensures var o := Step(cfg, t, e);
            && (o.response.error != RefreshTokenReuseDetected ==> o.tables == t)
            && (o.response.error == RefreshTokenReuseDetected ==>
                && e.action.presented.Signed?
                && var token := e.action.presented.token;
                   && token.sid in t.sessions
                   && var row := t.sessions[token.sid];
                      && row.IsActive(e.clk.now)
                      && !IsCurrent(row, token) && !IsRecoverablePrevious(cfg, row, token, e.clk.now)
                      && o.tables == t.(sessions := t.sessions[token.sid := row.(revokedAt := Some(e.clk.now))]))
  {
    if e.action.presented.Signed? && e.action.presented.token.sid in t.sessions {
      RotationRaisesQuietly(cfg, t, e, e.action.presented.token.sid);
    }
  }

  lemma RotationRaisesQuietly(cfg: Settings, t: Tables, e: Event, sid: Nonce)
    requires sid in t.sessions && VerifiedUser(t, t.sessions[sid].userId)
    ensures var o := RotateSession(cfg, t, sid, e.clk, e.nonce, e.faults);
            o.response.Failed? ==> o.tables == t && o.response.error != RefreshTokenReuseDetected
  {
  }

  /** A token that is neither current nor an in-window previous one revokes an active session, and the revocation is
      committed although the request fails; no other failing refresh changes anything. */
  lemma ReuseRevokes(cfg: Settings, events: seq<Event>, e: Event)
    requires IsRun(cfg, events) && e.action.Refresh?
    requires Step(cfg, Run(cfg, events).tables, e).response.Failed?
    ensures var h := Run(cfg, events);
            var o := Step(cfg, h.tables, e);
            && (o.response.error != RefreshTokenReuseDetected ==> o.tables == h.tables)
            && (o.response.error == RefreshTokenReuseDetected ==>
                && e.action.presented.Signed?
                && var token := e.action.presented.token;
                   && token.sid in h.tables.sessions
                   && var row := h.tables.sessions[token.sid];
                      && row.IsActive(e.clk.now)
                      && !InWindow(cfg, Chain(h.log, token.sid), token, e.clk.now)
                      && o.tables.users == h.tables.users && o.tables.codes == h.tables.codes
                      && o.tables.sessions == h.tables.sessions[token.sid := row.(revokedAt := Some(e.clk.now))])
  {
    var h := Run(cfg, events);
    OwnersStayVerified(cfg, events);
    FailedRefreshEffect(cfg, h.tables, e);
    if Step(cfg, h.tables, e).response.error == RefreshTokenReuseDetected {
      var token := e.action.presented.token;
      RotationChain(cfg, events, token.sid);
      HashesNameTheChain(cfg, h.tables, Nonces(h.log), Chain(h.log, token.sid), token, e.clk.now);
    }
  }

  /** And conversely: presenting such a token to an active session of its subject is always detected. */
  lemma ReuseIsDetected(cfg: Settings, events: seq<Event>, e: Event)
    requires IsRun(cfg, events) && e.action.Refresh? && e.faults == {}
    requires DecodeRefreshToken(e.action.presented, e.clk.arrive).Ok?
    requires var h := Run(cfg, events);
             var token := e.action.presented.token;
             && token.sid in h.tables.sessions && h.tables.sessions[token.sid].IsActive(e.clk.now)
             && token.sub == UserSubject(h.tables.sessions[token.sid].userId)
             && !InWindow(cfg, Chain(h.log, token.sid), token, e.clk.now)
    ensures Step(cfg, Run(cfg, events).tables, e).response == Failed(RefreshTokenReuseDetected)
  {
    var h, token := Run(cfg, events), e.action.presented.token;
    RotationChain(cfg, events, token.sid);
    HashesNameTheChain(cfg, h.tables, Nonces(h.log), Chain(h.log, token.sid), token, e.clk.now);
  }

  lemma RespelledIsOutside(cfg: Settings, used: set<Nonce>, c: seq<Issue>, token: RefreshToken, now: Time)
    requires ChainOk(cfg, used, token.sid, c) && token.spelling != CANONICAL
    ensures !InWindow(cfg, c, token, now)
  {
    if c != [] { assert IssueOk(cfg, used, token.sid, c, |c| - 1); }
    if |c| > 1 { assert IssueOk(cfg, used, token.sid, c, |c| - 2); }
  }

  /** So is any spelling of a token but the issued one, even of the current token. */
  lemma RespelledTokenIsReuse(cfg: Settings, events: seq<Event>, e: Event)
    requires IsRun(cfg, events) && e.action.Refresh? && e.faults == {}
    requires DecodeRefreshToken(e.action.presented, e.clk.arrive).Ok? && e.action.presented.token.spelling != CANONICAL
    requires var h, token := Run(cfg, events), e.action.presented.token;
             && token.sid in h.tables.sessions && h.tables.sessions[token.sid].IsActive(e.clk.now)
             && token.sub == UserSubject(h.tables.sessions[token.sid].userId)
    ensures Step(cfg, Run(cfg, events).tables, e).response == Failed(RefreshTokenReuseDetected)
  {
    var token := e.action.presented.token;
    RotationChain(cfg, events, token.sid);
    var log := Run(cfg, events).log;
    RespelledIsOutside(cfg, Nonces(log), Chain(log, token.sid), token, e.clk.now);
    ReuseIsDetected(cfg, events, e);
  }

  ghost predicate RevokedAt(t: Tables, sid: Nonce, at: Time) {
    sid in t.sessions ==> t.sessions[sid].revokedAt == Some(at)
  }

  lemma RevocationStep(cfg: Settings, t: Tables, log: seq<Entry>, e: Event, o: Outcome, sid: Nonce, at: Time)
    requires cfg.Valid() && RevokedAt(t, sid, at) && e.nonce != sid && SessionEffect(cfg, t, e, o)
    ensures RevokedAt(o.tables, sid, at)
    ensures var log' := log + [Entry(e, o.response)];
            Chain(log', sid) == Chain(log, sid) && Nonces(log) <= Nonces(log')
  {
    PairKeepsSession(cfg, t, e, o);
    HistoryGrows(log, Entry(e, o.response), sid);
  }

  /** Once revoked, a session stays revoked at the same instant for as long as its row exists, and no token of it is
      accepted in any continuation: its chain never grows again. */
  lemma {:induction false} RevocationIsFinal(cfg: Settings, events: seq<Event>, n: nat, sid: Nonce, at: Time)
    requires IsRun(cfg, events) && n <= |events|
    requires var t := Run(cfg, events[..n]).tables; sid in t.sessions && RevokedAt(t, sid, at)
    ensures RevokedAt(Run(cfg, events).tables, sid, at)
    ensures Chain(Run(cfg, events).log, sid) == Chain(Run(cfg, events[..n]).log, sid)
    ensures sid in Nonces(Run(cfg, events).log)
    decreases |events|
  {
    if n == |events| {
      assert events[..n] == events;
      RotationChain(cfg, events, sid);
    } else {
      var before, e := events[..|events| - 1], events[|events| - 1];
      assert before[..n] == events[..n];
      RevocationIsFinal(cfg, before, n, sid, at);
      var h := Run(cfg, before);
      NoncesOfRun(cfg, events);
      SessionEffects(cfg, h.tables, e);
      RevocationStep(cfg, h.tables, h.log, e, Step(cfg, h.tables, e), sid, at);
    }
  }

  lemma AnsweredRefreshGrowsChain(cfg: Settings, t: Tables, log: seq<Entry>, e: Event, o: Outcome)
    requires cfg.Valid() && SessionEffect(cfg, t, e, o) && o.response.Tokens?
    requires e.action.Refresh? && e.action.presented.Signed?
    ensures var sid := e.action.presented.token.sid;
            |Chain(log + [Entry(e, o.response)], sid)| == |Chain(log, sid)| + 1
  {
    PairKeepsSession(cfg, t, e, o);
    HistoryGrows(log, Entry(e, o.response), e.action.presented.token.sid);
  }

  /** After a revocation, presenting any token of the session fails, at every later point of the run. */
  lemma NothingAcceptedAfterRevocation(cfg: Settings, events: seq<Event>, n: nat, e: Event, sid: Nonce, at: Time)
    requires IsRun(cfg, events + [e]) && n <= |events|
    requires var t := Run(cfg, events[..n]).tables; sid in t.sessions && RevokedAt(t, sid, at)
    requires e.action.Refresh? && e.action.presented.Signed? && e.action.presented.token.sid == sid
    ensures !Step(cfg, Run(cfg, events).tables, e).response.Tokens?
  {
    var h := Run(cfg, events);
    assert (events + [e])[..n] == events[..n];
    assert FreshNonces(events) by {
      assert forall i :: 0 <= i < |events| ==> events[i] == (events + [e])[i];
    }
    RunSnoc(cfg, events, e);
    RevocationIsFinal(cfg, events + [e], n, sid, at);
    RevocationIsFinal(cfg, events, n, sid, at);
    SessionEffects(cfg, h.tables, e);
    if Step(cfg, h.tables, e).response.Tokens? {
      AnsweredRefreshGrowsChain(cfg, h.tables, h.log, e, Step(cfg, h.tables, e));
    }
  }

  // ----- login and logout -----

  lemma LoginAnsweredIff(cfg: Settings, t: Tables, e: Event)
    requires cfg.Valid() && e.action.Login? && e.clk.now <= e.clk.recheck && e.nonce !in t.sessions
    ensures var o := Step(cfg, t, e);
            && (o.response.Tokens? <==>
                && VerifiedUser(t, e.action.uid) && t.users[e.action.uid].isActive && e.action.passwordOk
                && LoginHasTime(cfg, e.clk) && e.faults !! {ReadRow, CommitWork})
            && (o.response.Tokens? ==>
                e.nonce in o.tables.sessions && o.tables.sessions[e.nonce].userId == e.action.uid)
            && (!o.response.Tokens? ==> o.tables == t)
  {
    StagedRowIsSound(cfg, e.action.uid, e.clk, e.nonce);
  }

  /** A login opens a session, and with it a chain of one pair, exactly for good credentials of an active and verified
      account when there is time for a session. */
  lemma LoginOpensSession(cfg: Settings, events: seq<Event>, e: Event)
    requires IsRun(cfg, events) && e.action.Login? && OrderedReadings(e.clk) && forall x <- events :: x.nonce != e.nonce
    ensures var h := Run(cfg, events);
            var o := Step(cfg, h.tables, e);
            && (o.response.Tokens? <==>
                && VerifiedUser(h.tables, e.action.uid) && h.tables.users[e.action.uid].isActive && e.action.passwordOk
                && LoginHasTime(cfg, e.clk) && e.faults !! {ReadRow, CommitWork})
            && (o.response.Tokens? ==>
                && Chain(h.log + [Entry(e, o.response)], e.nonce) == [Issue(o.response.pair, e.clk.now)]
                && e.nonce in o.tables.sessions && o.tables.sessions[e.nonce].userId == e.action.uid)
            && (!o.response.Tokens? ==> o.tables == h.tables)
  {
    var h := Run(cfg, events);
    var o := Step(cfg, h.tables, e);
    RotationChain(cfg, events, e.nonce);
    LoginAnsweredIff(cfg, h.tables, e);
    HistoryGrows(h.log, Entry(e, o.response), e.nonce);
    if o.response.Tokens? { LoginNamesItself(cfg, h.tables, e); }
  }

  lemma LoginNamesItself(cfg: Settings, t: Tables, e: Event)
    requires cfg.Valid() && e.action.Login? && Step(cfg, t, e).response.Tokens?
    ensures Step(cfg, t, e).response.pair.refresh.sid == e.nonce
  {
    PairWithinDeadline(cfg, UserSubject(e.action.uid), e.nonce, e.clk.now, e.clk.now + cfg.absoluteTtl, e.nonce);
  }

  /** Any unexpired token of a session, also an old one, logs the session out; doing so again changes nothing, whether
      its statements fail or not, and a logout fails for the database only, and then changes nothing. */
  lemma LogoutIsIdempotent(t: Tables, presented: Presented, clk: Clock, faults: set<Statement>, again: Clock,
                           more: set<Statement>)
    ensures var o := RevokeRefreshSession(t, presented, clk, faults);
            && (faults !! {ReadRow, CommitWork} ==> o.response == Done)
            && (o.response != Done ==> o == Fail(t, Unavailable))
            && o.tables.users == t.users && o.tables.codes == t.codes
            && (o.response == Done && DecodeRefreshToken(presented, clk.arrive).Ok? && presented.token.sid in t.sessions
                && presented.token.sub == UserSubject(t.sessions[presented.token.sid].userId) ==>
                  var row := t.sessions[presented.token.sid];
                  o.tables.sessions == t.sessions[presented.token.sid := if row.revokedAt.Some? then row
                                                                         else row.(revokedAt := Some(clk.now))])
            && (o.response == Done && DecodeRefreshToken(presented, clk.arrive).Ok? ==>
                  var o' := RevokeRefreshSession(o.tables, presented, again, more);
                  o'.tables == o.tables && (ReadRow !in more ==> o'.response == Done))
            && (o.response == Done && DecodeRefreshToken(presented, clk.arrive).Ok? && presented.token.sid in t.sessions
                && presented.token.sub == UserSubject(t.sessions[presented.token.sid].userId) ==>
                  !o.tables.sessions[presented.token.sid].IsActive(again.now))
            && (forall sid <- t.sessions :: (presented.Signed? && sid == presented.token.sid)
                                            || (sid in o.tables.sessions && o.tables.sessions[sid] == t.sessions[sid]))
  {
  }

  /** A logout answered for a live token of a session. */
  ghost predicate LogsOut(cfg: Settings, t: Tables, e: Event) {
    && e.action.Logout? && DecodeRefreshToken(e.action.presented, e.clk.arrive).Ok?
    && Step(cfg, t, e).response == Done
    && var token := e.action.presented.token;
       token.sid in t.sessions && token.sub == UserSubject(t.sessions[token.sid].userId)
  }

  lemma LogoutRevokes(cfg: Settings, t: Tables, e: Event)
    requires LogsOut(cfg, t, e)
    ensures var sid, t' := e.action.presented.token.sid, Step(cfg, t, e).tables;
            sid in t'.sessions && t'.sessions[sid].revokedAt.Some?
  {
  }

  /** Logging out is for good: in every continuation of the run the session stays revoked at one instant, its chain of
      pairs does not grow, and every refresh with a token of it fails. */
  lemma LogoutIsForGood(cfg: Settings, events: seq<Event>, n: nat, e: Event)
    requires IsRun(cfg, events + [e]) && n < |events| && LogsOut(cfg, Run(cfg, events[..n]).tables, events[n])
    ensures var sid, t := events[n].action.presented.token.sid, Run(cfg, events[..n + 1]).tables;
            && sid in t.sessions && t.sessions[sid].revokedAt.Some?
            && RevokedAt(Run(cfg, events).tables, sid, t.sessions[sid].revokedAt.value)
            && Chain(Run(cfg, events).log, sid) == Chain(Run(cfg, events[..n + 1]).log, sid)
            && (e.action.Refresh? && e.action.presented.Signed? && e.action.presented.token.sid == sid ==>
                  !Step(cfg, Run(cfg, events).tables, e).response.Tokens?)
  {
    var t := Run(cfg, events[..n]).tables;
    LogoutRevokes(cfg, t, events[n]);
    assert events[..n + 1] == events[..n] + [events[n]];
    RunSnoc(cfg, events[..n], events[n]);
    var sid := events[n].action.presented.token.sid;
    var at := Run(cfg, events[..n + 1]).tables.sessions[sid].revokedAt.value;
    assert FreshNonces(events) by {
      assert forall i :: 0 <= i < |events| ==> events[i] == (events + [e])[i];
    }
    RevocationIsFinal(cfg, events, n + 1, sid, at);
    if e.action.Refresh? && e.action.presented.Signed? && e.action.presented.token.sid == sid {
      NothingAcceptedAfterRevocation(cfg, events, n + 1, e, sid, at);
    }
  }

  /** In every reachable state a session is active exactly if it was not revoked and its last token has not expired: the
      check of the deadline decides nothing that the sliding expiry does not. */
  lemma ActiveIff(cfg: Settings, events: seq<Event>, sid: Nonce, at: Time)
    requires IsRun(cfg, events) && sid in Run(cfg, events).tables.sessions
    ensures var h := Run(cfg, events);
            var c := Chain(h.log, sid);
            && c != []
            && (h.tables.sessions[sid].IsActive(at) <==>
                h.tables.sessions[sid].revokedAt.None? && at < c[|c| - 1].pair.refresh.exp)
  {
    RotationChain(cfg, events, sid);
    var h := Run(cfg, events);
    ActiveByChain(cfg, h.tables, Nonces(h.log), Chain(h.log, sid), sid, at);
  }

  lemma ActiveByChain(cfg: Settings, t: Tables, used: set<Nonce>, c: seq<Issue>, sid: Nonce, at: Time)
    requires SessionInv(cfg, t, used, c, sid) && sid in t.sessions
    ensures c != []
    ensures t.sessions[sid].IsActive(at) <==> t.sessions[sid].revokedAt.None? && at < c[|c| - 1].pair.refresh.exp
  {
    assert IssueOk(cfg, used, sid, c, |c| - 1);
  }
}
