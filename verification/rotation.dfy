/** Rotating refresh sessions over whole runs: the token chain of a session, how often and until when each of its
    tokens can be redeemed, the fixed deadline, and the revocation of a compromised session. */
module Rotation {
  import opened Base
  import opened Security
  import opened Store
  import opened Credentials

  /** A token pair handed out for a session, and the instant at which it was issued. */
  datatype Issue = Issue(pair: TokenPair, at: Time)

  predicate IssuesFor(x: Entry, sid: Nonce) { x.response.Tokens? && x.response.pair.refresh.sid == sid }

  /** Every pair that clients received for a session, oldest first, read off the history of answers. */
  ghost function Chain(log: seq<Entry>, sid: Nonce): seq<Issue> {
    if log == [] then []
    else
      var x := log[|log| - 1];
      var before := Chain(log[..|log| - 1], sid);
      if IssuesFor(x, sid) then before + [Issue(x.response.pair, x.event.clk.now)] else before
  }

  predicate Redeems(x: Entry, token: RefreshToken) {
    x.event.action == Refresh(Signed(token)) && x.response.Tokens?
  }

  ghost function Redemptions(log: seq<Entry>, token: RefreshToken): nat {
    if log == [] then 0
    else Redemptions(log[..|log| - 1], token) + if Redeems(log[|log| - 1], token) then 1 else 0
  }

  ghost function Nonces(log: seq<Entry>): set<Nonce> {
    set i | 0 <= i < |log| :: log[i].event.nonce
  }

  // ----- what one step can do to the sessions -----

  ghost predicate Opens(cfg: Settings, t: Tables, e: Event, o: Outcome) {
    && o.response.Tokens? && e.nonce !in t.sessions && e.nonce in o.tables.sessions && !e.action.Refresh?
    && var row := o.tables.sessions[e.nonce];
       && o.tables.sessions == t.sessions[e.nonce := row]
       && Ok(o.response.pair)
          == CreateTokenPair(cfg, UserSubject(row.userId), e.nonce, e.clk.now, Some(e.clk.now + cfg.absoluteTtl),
                             e.nonce)
       && row == SessionRow(row.userId, Digest(o.response.pair.refresh), None, e.clk.began, o.response.pair.refresh.exp,
                            e.clk.now + cfg.absoluteTtl, None, Some(e.clk.now), None)
       && row.Constraints()
  }

  ghost predicate Rotates(cfg: Settings, t: Tables, e: Event, o: Outcome) {
    && o.response.Tokens? && e.action.Refresh? && e.action.presented.Signed?
    && var token := e.action.presented.token;
       && token.sid in t.sessions
       && var row := t.sessions[token.sid];
          && row.IsActive(e.clk.now)
          && (IsCurrent(row, token) || IsRecoverablePrevious(cfg, row, token, e.clk.now))
          && Ok(o.response.pair)
             == CreateTokenPair(cfg, UserSubject(row.userId), token.sid, e.clk.now, Some(row.absoluteExpiresAt),
                                e.nonce)
          && var rotated := row.Rotated(Digest(o.response.pair.refresh), o.response.pair.refresh.exp, e.clk.now);
             rotated.Constraints() && o.tables.sessions == t.sessions[token.sid := rotated]
  }

  ghost predicate Revokes(t: Tables, e: Event, o: Outcome, sid: Nonce) {
    && !o.response.Tokens? && (e.action.Refresh? || e.action.Logout?)
    && sid in t.sessions
    && o.tables.sessions == t.sessions[sid := t.sessions[sid].Revoked(e.clk.now)]
  }

  ghost predicate Shrinks(t: Tables, o: Outcome) {
    && !o.response.Tokens?
    && forall sid <- o.tables.sessions :: sid in t.sessions && o.tables.sessions[sid] == t.sessions[sid]
  }

  ghost predicate SessionEffect(cfg: Settings, t: Tables, e: Event, o: Outcome) {
    || Opens(cfg, t, e, o) || Rotates(cfg, t, e, o) || (exists sid :: Revokes(t, e, o, sid)) || Shrinks(t, o)
  }

  /** Every request and every job opens a session, rotates one, revokes one, or only drops rows. */
  lemma SessionEffects(cfg: Settings, t: Tables, e: Event)
    ensures SessionEffect(cfg, t, e, Step(cfg, t, e))
  {
    match e.action
    case Refresh(presented) => RefreshEffect(cfg, t, e);
    case Logout(presented) =>
      var o := Step(cfg, t, e);
      if o.tables.sessions != t.sessions {
        assert Revokes(t, e, o, presented.token.sid);
      }
    case Login(_, _) =>
    case Exchange(_) => ExchangeEffect(cfg, t, e);
    case PruneSessions =>
    case _ => SessionsUntouched(cfg, t, e);
  }

  lemma ExchangeEffect(cfg: Settings, t: Tables, e: Event)
    requires e.action.Exchange?
    ensures var o := ExchangeCode(cfg, t, e.action.exchange, e.clk, e.nonce, e.faults);
            Opens(cfg, t, e, o) || Shrinks(t, o)
  {
  }

  lemma RefreshEffect(cfg: Settings, t: Tables, e: Event)
    requires e.action.Refresh?
    ensures SessionEffect(cfg, t, e, RefreshSession(cfg, t, e.action.presented, e.clk, e.nonce, e.faults))
  {
    var o := RefreshSession(cfg, t, e.action.presented, e.clk, e.nonce, e.faults);
    if o.tables.sessions != t.sessions && !o.response.Tokens? {
      assert Revokes(t, e, o, e.action.presented.token.sid);
    }
  }

  // ----- the invariant of one session -----

  function Deadline(cfg: Settings, c: seq<Issue>): Time
    requires c != []
  {
    c[0].at + cfg.absoluteTtl
  }

  /** The i-th pair of a chain: same session and owner, an id already drawn, an expiry that slides but stops at the
      fixed deadline. */
  ghost predicate IssueOk(cfg: Settings, used: set<Nonce>, sid: Nonce, c: seq<Issue>, i: nat)
    requires i < |c|
  {
    var pair := c[i].pair;
    && pair.refresh.sid == sid && pair.refresh.sub == c[0].pair.refresh.sub == pair.access.sub
    && pair.refresh.jti in used && pair.refresh.spelling == CANONICAL
    && pair.access.exp == FloorSecond(Min(c[i].at + cfg.AccessLifetime(), Deadline(cfg, c)))
    && pair.access.iat == pair.refresh.iat == FloorSecond(c[i].at)
    && pair.refresh.exp == FloorSecond(Min(c[i].at + cfg.RefreshLifetime(), Deadline(cfg, c)))
  }

  ghost predicate ChainOk(cfg: Settings, used: set<Nonce>, sid: Nonce, c: seq<Issue>) {
    && (sid !in used ==> c == [])
    && (forall i :: 0 <= i < |c| ==> IssueOk(cfg, used, sid, c, i))
    && (forall i, j :: 0 <= i < j < |c| ==> c[i].pair.refresh.jti != c[j].pair.refresh.jti)
  }

  /** The row holds the last token of the chain as current and the one before it as previous. */
  ghost predicate RowOk(cfg: Settings, row: SessionRow, c: seq<Issue>) {
    && c != [] && row.Constraints()
    && var last := c[|c| - 1];
       && last.pair.refresh.sub == UserSubject(row.userId)
       && row.tokenHash == Digest(last.pair.refresh)
       && row.previousTokenHash == (if |c| == 1 then None else Some(Digest(c[|c| - 2].pair.refresh)))
       && row.rotatedAt == (if |c| == 1 then None else Some(last.at))
       && row.lastUsedAt == Some(last.at)
       && row.absoluteExpiresAt == Deadline(cfg, c)
       && row.expiresAt == FloorSecond(Min(last.at + cfg.RefreshLifetime(), Deadline(cfg, c)))
  }

  ghost predicate SessionInv(cfg: Settings, t: Tables, used: set<Nonce>, c: seq<Issue>, sid: Nonce) {
    && ChainOk(cfg, used, sid, c)
    && (sid in t.sessions ==> sid in used && RowOk(cfg, t.sessions[sid], c))
  }

  lemma HistoryGrows(log: seq<Entry>, x: Entry, sid: Nonce)
    ensures Nonces(log + [x]) == Nonces(log) + {x.event.nonce}
    ensures Chain(log + [x], sid)
            == if IssuesFor(x, sid) then Chain(log, sid) + [Issue(x.response.pair, x.event.clk.now)]
               else Chain(log, sid)
  {
    assert (log + [x])[..|log|] == log;
    assert forall i :: 0 <= i < |log| ==> (log + [x])[i] == log[i];
    assert (log + [x])[|log|] == x;
  }

  /** A chain stays well-formed while nothing is issued. */
  lemma ChainWaits(cfg: Settings, used: set<Nonce>, more: set<Nonce>, sid: Nonce, c: seq<Issue>)
    requires ChainOk(cfg, used, sid, c) && used <= more
    requires sid in more ==> sid in used || c == []
    ensures ChainOk(cfg, more, sid, c)
  {
    forall i | 0 <= i < |c| ensures IssueOk(cfg, more, sid, c, i) {
      assert IssueOk(cfg, used, sid, c, i);
    }
  }

  /** A chain stays well-formed when a pair with a fresh id and the right owner and expiry is appended. */
  lemma ChainGrows(cfg: Settings, used: set<Nonce>, nonce: Nonce, sid: Nonce, c: seq<Issue>, added: Issue)
    requires ChainOk(cfg, used, sid, c) && nonce !in used
    requires c == [] ==> sid == nonce
    requires c != [] ==> sid in used
    requires added.pair.refresh.jti == nonce
    requires var c' := c + [added]; IssueOk(cfg, used + {nonce}, sid, c', |c|)
    ensures ChainOk(cfg, used + {nonce}, sid, c + [added])
  {
    var c' := c + [added];
    forall i | 0 <= i < |c'|
      ensures IssueOk(cfg, used + {nonce}, sid, c', i)
      ensures i < |c| ==> c'[i].pair.refresh.jti != nonce
    {
      if i < |c| { assert IssueOk(cfg, used, sid, c, i); }
    }
  }

  lemma OpenedInv(cfg: Settings, t: Tables, used: set<Nonce>, c: seq<Issue>, e: Event, o: Outcome)
    requires cfg.Valid() && SessionInv(cfg, t, used, c, e.nonce) && e.nonce !in used
    requires Opens(cfg, t, e, o)
    ensures o.response.pair.refresh.sid == e.nonce
    ensures SessionInv(cfg, o.tables, used + {e.nonce}, c + [Issue(o.response.pair, e.clk.now)], e.nonce)
  {
    var row := o.tables.sessions[e.nonce];
    PairWithinDeadline(cfg, UserSubject(row.userId), e.nonce, e.clk.now, e.clk.now + cfg.absoluteTtl, e.nonce);
    ChainGrows(cfg, used, e.nonce, e.nonce, c, Issue(o.response.pair, e.clk.now));
  }

  lemma RotatedInv(cfg: Settings, t: Tables, used: set<Nonce>, c: seq<Issue>, e: Event, o: Outcome, sid: Nonce)
    requires cfg.Valid() && SessionInv(cfg, t, used, c, sid) && e.nonce !in used
    requires Rotates(cfg, t, e, o) && e.action.presented.token.sid == sid
    ensures o.response.pair.refresh.sid == sid
    ensures SessionInv(cfg, o.tables, used + {e.nonce}, c + [Issue(o.response.pair, e.clk.now)], sid)
  {
    var row := t.sessions[sid];
    PairWithinDeadline(cfg, UserSubject(row.userId), sid, e.clk.now, row.absoluteExpiresAt, e.nonce);
    assert IssueOk(cfg, used, sid, c, |c| - 1);
    ChainGrows(cfg, used, e.nonce, sid, c, Issue(o.response.pair, e.clk.now));
  }

  lemma SessionInvStep(cfg: Settings, t: Tables, log: seq<Entry>, e: Event, o: Outcome, sid: Nonce)
    requires cfg.Valid() && SessionInv(cfg, t, Nonces(log), Chain(log, sid), sid) && e.nonce !in Nonces(log)
    requires e.nonce !in t.sessions && SessionEffect(cfg, t, e, o)
    ensures var log' := log + [Entry(e, o.response)];
            SessionInv(cfg, o.tables, Nonces(log'), Chain(log', sid), sid)
  {
    var used, c := Nonces(log), Chain(log, sid);
    HistoryGrows(log, Entry(e, o.response), sid);
    if Opens(cfg, t, e, o) && sid == e.nonce {
      OpenedInv(cfg, t, used, c, e, o);
    } else if Rotates(cfg, t, e, o) && e.action.presented.token.sid == sid {
      RotatedInv(cfg, t, used, c, e, o, sid);
    } else {
      PairKeepsSession(cfg, t, e, o);
      ChainWaits(cfg, used, used + {e.nonce}, sid, c);
    }
  }

  /** A pair names the session that was opened or rotated. */
  lemma PairKeepsSession(cfg: Settings, t: Tables, e: Event, o: Outcome)
    requires cfg.Valid()
    ensures Opens(cfg, t, e, o) ==> o.response.pair.refresh.sid == e.nonce
    ensures Rotates(cfg, t, e, o) ==> o.response.pair.refresh.sid == e.action.presented.token.sid
  {
  }

  lemma NoncesOfRun(cfg: Settings, events: seq<Event>)
    requires FreshNonces(events) && events != []
    ensures events[|events| - 1].nonce !in Nonces(Run(cfg, events[..|events| - 1]).log)
  {
  }

  /** In every reachable state a session row holds exactly the last issued token as current and the one before it as
      previous (none if it was never rotated), and the expiry of the last issue cut by the fixed deadline. */
  lemma {:induction false} RotationChain(cfg: Settings, events: seq<Event>, sid: Nonce)
    requires IsRun(cfg, events)
    ensures var h := Run(cfg, events); SessionInv(cfg, h.tables, Nonces(h.log), Chain(h.log, sid), sid)
  {
    if events != [] {
      var before, e := events[..|events| - 1], events[|events| - 1];
      var h := Run(cfg, before);
      RotationChain(cfg, before, sid);
      RotationChain(cfg, before, e.nonce);
      NoncesOfRun(cfg, events);
      SessionEffects(cfg, h.tables, e);
      SessionInvStep(cfg, h.tables, h.log, e, Step(cfg, h.tables, e), sid);
    }
  }

  /** No two session rows ever store the same current hash, so the unique constraint on it cannot refuse a row. */
  lemma TokenHashesAreUnique(cfg: Settings, events: seq<Event>, sid: Nonce, other: Nonce)
    requires IsRun(cfg, events)
    requires var t := Run(cfg, events).tables;
             sid in t.sessions && other in t.sessions && t.sessions[sid].tokenHash == t.sessions[other].tokenHash
    ensures sid == other
  {
    RotationChain(cfg, events, sid);
    RotationChain(cfg, events, other);
    var log := Run(cfg, events).log;
    assert IssueOk(cfg, Nonces(log), sid, Chain(log, sid), |Chain(log, sid)| - 1);
    assert IssueOk(cfg, Nonces(log), other, Chain(log, other), |Chain(log, other)| - 1);
  }
}
