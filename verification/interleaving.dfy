/** Concurrent code exchanges, statement by statement. The UPDATE that consumes a code takes its row lock and keeps it
    until commit or rollback; other requests run between the statements and wait for locked rows. */
module Interleaving {
  import opened Base
  import opened Security
  import opened Store
  import opened Credentials
  import opened Rotation
  import opened Authorization

  type Pid = nat

  /** Where an exchange stands: before its UPDATE, holding the row lock, owner loaded, session staged, answered. */
  datatype Phase = Started | Holding | Loaded | Staging(staged: Staged) | Finished(answer: Response)

  datatype Proc = Proc(request: TokenRequest, clk: Clock, nonce: Nonce, phase: Phase)
  {
    predicate Holds() { phase.Holding? || phase.Loaded? || phase.Staging? }

    function Hash(): Digest<Nonce> { Digest(request.code) }
  }

  /** A committed exchange: which request consumed which code for which session. */
  datatype Commit = Commit(pid: Pid, code: Nonce, sid: Nonce)

  datatype State = State(
    tables: Tables,
    locks: map<Digest<Nonce>, Pid>,
    procs: map<Pid, Proc>,
    commits: seq<Commit>,
    drawn: set<Nonce>)

  datatype Label =
    | Arrive(pid: Pid, request: TokenRequest, clk: Clock, nonce: Nonce)
    | Consume(pid: Pid)
    | LoadOwner(pid: Pid)
    | Stage(pid: Pid)
    | CommitExchange(pid: Pid)
    | Raise(pid: Pid)
    | Other(event: Event)

  const INITIAL := State(EMPTY, map[], map[], [], {})

  function Move(s: State, pid: Pid, phase: Phase): State
    requires pid in s.procs
  {
    s.(procs := s.procs[pid := s.procs[pid].(phase := phase)])
  }

  /** Rollback: the pending UPDATE and the staged row vanish and the lock is released. */
  function Rollback(s: State, pid: Pid, error: Error): State
    requires pid in s.procs
  {
    var s' := Move(s, pid, Finished(Failed(error)));
    if s.procs[pid].Holds() then s'.(locks := s.locks - {s.procs[pid].Hash()}) else s'
  }

  /** The UPDATE. On a row that matches but is locked it waits; the predicate is evaluated again afterwards. */
  function ConsumeStep(s: State, pid: Pid): State
    requires pid in s.procs && s.procs[pid].phase.Started?
  {
    var p := s.procs[pid];
    if !Redeemable(s.tables.codes, p.request, p.clk.now) then Rollback(s, pid, InvalidGrant)
    else if p.Hash() in s.locks then s
    else if !s.tables.codes[p.Hash()].(consumedAt := Some(p.clk.now)).Constraints() then Rollback(s, pid, Unavailable)
    else Move(s, pid, Holding).(locks := s.locks[p.Hash() := pid])
  }

  function LoadStep(s: State, pid: Pid): State
    requires pid in s.procs && s.procs[pid].phase.Holding? && s.procs[pid].Hash() in s.tables.codes
  {
    var uid := s.tables.codes[s.procs[pid].Hash()].userId;
    if uid !in s.tables.users || !s.tables.users[uid].isActive then Rollback(s, pid, InvalidGrant)
    else Move(s, pid, Loaded)
  }

  function StageStep(cfg: Settings, s: State, pid: Pid): State
    requires pid in s.procs && s.procs[pid].phase.Loaded? && s.procs[pid].Hash() in s.tables.codes
  {
    var p := s.procs[pid];
    match StageLoginSession(cfg, s.tables.codes[p.Hash()].userId, p.clk, p.nonce)
    case Err(e) => Rollback(s, pid, e)
    case Ok(staged) => Move(s, pid, Staging(staged))
  }

  /** Both writes become visible together, or neither does. */
  function CommitStep(s: State, pid: Pid): State
    requires pid in s.procs && s.procs[pid].phase.Staging? && s.procs[pid].Hash() in s.tables.codes
  {
    var p := s.procs[pid];
    var consumed := s.tables.codes[p.Hash()].(consumedAt := Some(p.clk.now));
    var o := CommitSession(s.tables.(codes := s.tables.codes[p.Hash() := consumed]), p.nonce, p.phase.staged, {});
    if !o.response.Tokens? then Rollback(s, pid, Unavailable)
    else Move(s, pid, Finished(o.response)).(
      tables := o.tables, locks := s.locks - {p.Hash()}, commits := s.commits + [Commit(pid, p.request.code, p.nonce)])
  }

  /** Any other request or job, atomically; it waits for as long as it would change a locked row. */
  ghost predicate Unblocked(cfg: Settings, s: State, e: Event) {
    var codes := Step(cfg, s.tables, e).tables.codes;
    forall h <- s.locks :: h in codes && h in s.tables.codes && codes[h] == s.tables.codes[h]
  }

  /** One step; a label that is not enabled changes nothing. */
  ghost function Next(cfg: Settings, s: State, l: Label): State {
    match l
    case Arrive(pid, request, clk, nonce) =>
      if pid in s.procs || nonce in s.drawn then s
      else
        var phase := if request.clientId != cfg.clientId then Finished(Failed(InvalidClient)) else Started;
        s.(procs := s.procs[pid := Proc(request, clk, nonce, phase)], drawn := s.drawn + {nonce})
    case Consume(pid) =>
      if pid !in s.procs || !s.procs[pid].phase.Started? then s else ConsumeStep(s, pid)
    case LoadOwner(pid) =>
      if pid !in s.procs || !s.procs[pid].phase.Holding? || s.procs[pid].Hash() !in s.tables.codes then s
      else LoadStep(s, pid)
    case Stage(pid) =>
      if pid !in s.procs || !s.procs[pid].phase.Loaded? || s.procs[pid].Hash() !in s.tables.codes then s
      else StageStep(cfg, s, pid)
    case CommitExchange(pid) =>
      if pid !in s.procs || !s.procs[pid].phase.Staging? || s.procs[pid].Hash() !in s.tables.codes then s
      else CommitStep(s, pid)
    case Raise(pid) =>
      if pid !in s.procs || s.procs[pid].phase.Finished? then s else Rollback(s, pid, Unavailable)
    case Other(e) =>
      if e.action.Exchange? || e.nonce in s.drawn || !Unblocked(cfg, s, e) then s
      else s.(tables := Step(cfg, s.tables, e).tables, drawn := s.drawn + {e.nonce})
  }

  ghost function Exec(cfg: Settings, labels: seq<Label>): State {
    if labels == [] then INITIAL else Next(cfg, Exec(cfg, labels[..|labels| - 1]), labels[|labels| - 1])
  }

  // ----- the invariant -----

  /** A lock protects a row that is still redeemable for its holder, and every exchange past its UPDATE holds one. */
  ghost predicate LocksOk(s: State) {
    && (forall h <- s.locks :: s.locks[h] in s.procs && s.procs[s.locks[h]].Holds() && s.procs[s.locks[h]].Hash() == h)
    && (forall pid <- s.procs :: s.procs[pid].Holds() ==> HoldsOk(s, pid))
  }

  ghost predicate HoldsOk(s: State, pid: Pid)
    requires pid in s.procs
  {
    var p := s.procs[pid];
    && p.Hash() in s.locks && s.locks[p.Hash()] == pid
    && Redeemable(s.tables.codes, p.request, p.clk.now)
    && s.tables.codes[p.Hash()].(consumedAt := Some(p.clk.now)).Constraints()
  }

  ghost predicate CommitOk(s: State, c: Commit) {
    && c.pid in s.procs && c.code == s.procs[c.pid].request.code && c.sid == s.procs[c.pid].nonce
    && s.procs[c.pid].phase.Finished? && s.procs[c.pid].phase.answer.Tokens?
    && c.code in s.drawn
  }

  ghost predicate Committed(s: State, pid: Pid) { exists i :: 0 <= i < |s.commits| && s.commits[i].pid == pid }

  ghost predicate Consumed(s: State, code: Nonce) { exists i :: 0 <= i < |s.commits| && s.commits[i].code == code }

  ghost predicate CommitsOk(s: State) {
    && (forall i :: 0 <= i < |s.commits| ==> CommitOk(s, s.commits[i]))
    && (forall i, j :: 0 <= i < j < |s.commits| ==>
          s.commits[i].pid != s.commits[j].pid && s.commits[i].code != s.commits[j].code
          && s.commits[i].sid != s.commits[j].sid)
  }

  /** A request has answered with tokens exactly if it committed; otherwise its session does not exist. */
  ghost predicate ProcOk(s: State, pid: Pid)
    requires pid in s.procs
  {
    var p := s.procs[pid];
    && p.nonce in s.drawn
    && (p.phase.Finished? && p.phase.answer.Tokens? <==> Committed(s, pid))
    && (p.nonce in s.tables.sessions ==> Committed(s, pid))
  }

  ghost predicate ProcsOk(s: State) {
    && (forall pid <- s.procs :: ProcOk(s, pid))
    && (forall pid, other :: pid in s.procs && other in s.procs && pid != other ==>
          s.procs[pid].nonce != s.procs[other].nonce)
  }

  /** A code row records a consumption exactly if a committed exchange consumed it. */
  ghost predicate CodesOk(s: State) {
    forall h <- s.tables.codes ::
      h.preimage in s.drawn && (s.tables.codes[h].consumedAt.Some? <==> Consumed(s, h.preimage))
  }

  ghost predicate SessionsDrawn(s: State) { forall sid <- s.tables.sessions :: sid in s.drawn }

  ghost predicate Inv(s: State) {
    LocksOk(s) && CommitsOk(s) && ProcsOk(s) && CodesOk(s) && SessionsDrawn(s)
  }

  /** Steps that leave the committed tables and the list of commits alone. */
  lemma QuietMove(s: State, s': State, pid: Pid)
    requires Inv(s) && pid in s.procs && !s.procs[pid].phase.Finished?
    requires s'.tables == s.tables && s'.commits == s.commits && s'.drawn == s.drawn && LocksOk(s')
    requires pid in s'.procs && s'.procs == s.procs[pid := s.procs[pid].(phase := s'.procs[pid].phase)]
    requires s'.procs[pid].phase.Finished? ==> s'.procs[pid].phase.answer.Failed?
    ensures Inv(s')
  {
    forall i | 0 <= i < |s'.commits| ensures CommitOk(s', s'.commits[i]) { assert CommitOk(s, s.commits[i]); }
    forall p | p in s'.procs ensures ProcOk(s', p) {
      assert ProcOk(s, p);
      assert Committed(s, p) == Committed(s', p);
    }
    forall h | h in s'.tables.codes ensures Consumed(s, h.preimage) == Consumed(s', h.preimage) {}
  }

  lemma RollbackKeepsLocks(s: State, pid: Pid, error: Error)
    requires LocksOk(s) && pid in s.procs
    ensures LocksOk(Rollback(s, pid, error))
  {
    var s' := Rollback(s, pid, error);
    if s.procs[pid].Holds() { assert HoldsOk(s, pid); }
    forall p | p in s'.procs && s'.procs[p].Holds() ensures HoldsOk(s', p) {
      assert p != pid && s'.procs[p] == s.procs[p];
      assert HoldsOk(s, p);
    }
  }

  lemma RollbackKeepsInv(s: State, pid: Pid, error: Error)
    requires Inv(s) && pid in s.procs && !s.procs[pid].phase.Finished?
    ensures Inv(Rollback(s, pid, error))
  {
    RollbackKeepsLocks(s, pid, error);
    QuietMove(s, Rollback(s, pid, error), pid);
  }

  lemma MoveKeepsInv(s: State, pid: Pid, phase: Phase)
    requires Inv(s) && pid in s.procs && s.procs[pid].Holds()
    requires phase.Loaded? || phase.Staging?
    ensures Inv(Move(s, pid, phase))
  {
    var s' := Move(s, pid, phase);
    forall p | p in s'.procs && s'.procs[p].Holds() ensures HoldsOk(s', p) { assert HoldsOk(s, p); }
    QuietMove(s, s', pid);
  }

  lemma ConsumeKeepsLocks(s: State, pid: Pid)
    requires LocksOk(s) && pid in s.procs && s.procs[pid].phase.Started?
    requires ConsumeStep(s, pid).procs[pid].phase.Holding?
    ensures LocksOk(ConsumeStep(s, pid))
  {
    var s' := ConsumeStep(s, pid);
    forall q | q in s'.procs && s'.procs[q].Holds() ensures HoldsOk(s', q) {
      if q != pid { assert HoldsOk(s, q); }
    }
  }

  lemma ConsumeKeepsInv(s: State, pid: Pid)
    requires Inv(s) && pid in s.procs && s.procs[pid].phase.Started?
    ensures Inv(ConsumeStep(s, pid))
  {
    var s' := ConsumeStep(s, pid);
    if s'.procs[pid].phase.Holding? {
      ConsumeKeepsLocks(s, pid);
      QuietMove(s, s', pid);
    } else if s'.procs[pid].phase.Finished? {
      RollbackKeepsInv(s, pid, s'.procs[pid].phase.answer.error);
    }
  }

  lemma ArriveKeepsInv(cfg: Settings, s: State, pid: Pid, request: TokenRequest, clk: Clock, nonce: Nonce)
    requires Inv(s)
    ensures Inv(Next(cfg, s, Arrive(pid, request, clk, nonce)))
  {
    var s' := Next(cfg, s, Arrive(pid, request, clk, nonce));
    if s' != s {
      forall p | p in s'.procs && s'.procs[p].Holds() ensures HoldsOk(s', p) { assert HoldsOk(s, p); }
      forall i | 0 <= i < |s'.commits| ensures CommitOk(s', s'.commits[i]) { assert CommitOk(s, s.commits[i]); }
      forall p | p in s'.procs ensures ProcOk(s', p) {
        if p != pid { assert ProcOk(s, p); }
        assert Committed(s, p) == Committed(s', p);
      }
      forall h | h in s'.tables.codes ensures Consumed(s, h.preimage) == Consumed(s', h.preimage) {}
    }
  }

  /** What a step of any other request can do to codes and sessions. */
  lemma OtherEffects(cfg: Settings, t: Tables, e: Event)
    requires !e.action.Exchange?
    ensures var t' := Step(cfg, t, e).tables;
            && (forall h <- t'.codes :: (h in t.codes && t'.codes[h] == t.codes[h])
                                        || (h == Digest(e.nonce) && t'.codes[h].consumedAt.None?))
            && (forall sid <- t'.sessions :: sid in t.sessions || sid == e.nonce)
  {
    SessionEffects(cfg, t, e);
    var t' := Step(cfg, t, e).tables;
    forall h | h in t'.codes
      ensures (h in t.codes && t'.codes[h] == t.codes[h]) || (h == Digest(e.nonce) && t'.codes[h].consumedAt.None?)
    {
      CodeEffects(cfg, t, e, h.preimage);
    }
  }

  lemma OtherKeepsInv(cfg: Settings, s: State, e: Event)
    requires Inv(s) && !e.action.Exchange? && e.nonce !in s.drawn && Unblocked(cfg, s, e)
    ensures Inv(s.(tables := Step(cfg, s.tables, e).tables, drawn := s.drawn + {e.nonce}))
  {
    OtherEffects(cfg, s.tables, e);
    var t' := Step(cfg, s.tables, e).tables;
    TablesChange(s, s.(tables := t', drawn := s.drawn + {e.nonce}), e.nonce);
  }

  lemma TablesChange(s: State, s': State, nonce: Nonce)
    requires Inv(s) && nonce !in s.drawn
    requires s' == s.(tables := s'.tables, drawn := s.drawn + {nonce})
    requires forall h <- s'.tables.codes :: (h in s.tables.codes && s'.tables.codes[h] == s.tables.codes[h])
                                            || (h == Digest(nonce) && s'.tables.codes[h].consumedAt.None?)
    requires forall sid <- s'.tables.sessions :: sid in s.tables.sessions || sid == nonce
    requires forall h <- s.locks ::
               h in s'.tables.codes && h in s.tables.codes && s'.tables.codes[h] == s.tables.codes[h]
    ensures Inv(s')
  {
    forall p | p in s'.procs && s'.procs[p].Holds() ensures HoldsOk(s', p) { assert HoldsOk(s, p); }
    forall i | 0 <= i < |s'.commits| ensures CommitOk(s', s'.commits[i]) { assert CommitOk(s, s.commits[i]); }
    forall p | p in s'.procs ensures ProcOk(s', p) {
      assert ProcOk(s, p);
      assert Committed(s, p) == Committed(s', p);
    }
    forall h | h in s'.tables.codes
      ensures h.preimage in s'.drawn && (s'.tables.codes[h].consumedAt.Some? <==> Consumed(s', h.preimage))
    {
      assert Consumed(s, h.preimage) == Consumed(s', h.preimage);
    }
  }

  lemma AppendCommit(s: State, s': State, c: Commit)
    requires s'.commits == s.commits + [c]
    ensures forall pid :: Committed(s', pid) <==> Committed(s, pid) || pid == c.pid
    ensures forall code :: Consumed(s', code) <==> Consumed(s, code) || code == c.code
  {
    var n := |s.commits|;
    assert s'.commits[n] == c;
    forall pid | Committed(s, pid) ensures Committed(s', pid) {
      var i :| 0 <= i < n && s.commits[i].pid == pid;
      assert s'.commits[i].pid == pid;
    }
    forall code | Consumed(s, code) ensures Consumed(s', code) {
      var i :| 0 <= i < n && s.commits[i].code == code;
      assert s'.commits[i].code == code;
    }
  }

  /** A commit is the first to name its request, its code and its session. */
  lemma CommitIsNew(s: State, pid: Pid)
    requires Inv(s) && pid in s.procs && s.procs[pid].phase.Staging?
    ensures var p := s.procs[pid];
            && !Committed(s, pid) && !Consumed(s, p.request.code) && p.request.code in s.drawn
            && forall i :: 0 <= i < |s.commits| ==>
                 s.commits[i].pid != pid && s.commits[i].code != p.request.code && s.commits[i].sid != p.nonce
  {
    var p := s.procs[pid];
    assert ProcOk(s, pid) && HoldsOk(s, pid);
    forall i | 0 <= i < |s.commits| ensures s.commits[i].pid != pid && s.commits[i].sid != p.nonce {
      assert CommitOk(s, s.commits[i]);
    }
  }

  lemma CommitKeepsLocks(s: State, pid: Pid)
    requires LocksOk(s) && pid in s.procs && s.procs[pid].phase.Staging? && s.procs[pid].Hash() in s.tables.codes
    requires CommitStep(s, pid).procs[pid].phase.Finished? && CommitStep(s, pid).procs[pid].phase.answer.Tokens?
    ensures LocksOk(CommitStep(s, pid))
  {
    var s' := CommitStep(s, pid);
    assert HoldsOk(s, pid);
    forall q | q in s'.procs && s'.procs[q].Holds() ensures HoldsOk(s', q) { assert HoldsOk(s, q); }
  }

  lemma CommitKeepsCommits(s: State, pid: Pid)
    requires Inv(s) && pid in s.procs && s.procs[pid].phase.Staging? && s.procs[pid].Hash() in s.tables.codes
    requires CommitStep(s, pid).procs[pid].phase.Finished? && CommitStep(s, pid).procs[pid].phase.answer.Tokens?
    ensures CommitsOk(CommitStep(s, pid))
  {
    var s' := CommitStep(s, pid);
    CommitIsNew(s, pid);
    forall i | 0 <= i < |s'.commits| ensures CommitOk(s', s'.commits[i]) {
      if i < |s.commits| { assert CommitOk(s, s.commits[i]); }
    }
  }

  lemma CommitKeepsInv(s: State, pid: Pid)
    requires Inv(s) && pid in s.procs && s.procs[pid].phase.Staging? && s.procs[pid].Hash() in s.tables.codes
    ensures Inv(CommitStep(s, pid))
  {
    var s', p := CommitStep(s, pid), s.procs[pid];
    CommitIsNew(s, pid);
    if s'.procs[pid].phase.answer.Tokens? {
      AppendCommit(s, s', Commit(pid, p.request.code, p.nonce));
      CommitKeepsLocks(s, pid);
      CommitKeepsCommits(s, pid);
      forall q | q in s'.procs ensures ProcOk(s', q) { assert ProcOk(s, q); }
    } else {
      RollbackKeepsInv(s, pid, Unavailable);
    }
  }

  lemma NextKeepsInv(cfg: Settings, s: State, l: Label)
    requires Inv(s)
    ensures Inv(Next(cfg, s, l))
  {
    var s' := Next(cfg, s, l);
    match l
    case Arrive(pid, request, clk, nonce) => ArriveKeepsInv(cfg, s, pid, request, clk, nonce);
    case Consume(pid) => if s' != s { ConsumeKeepsInv(s, pid); }
    case LoadOwner(pid) =>
      if s' != s { RollbackKeepsInv(s, pid, InvalidGrant); MoveKeepsInv(s, pid, Loaded); }
    case Stage(pid) =>
      if s' != s {
        var p := s.procs[pid];
        match StageLoginSession(cfg, s.tables.codes[p.Hash()].userId, p.clk, p.nonce)
        case Err(e) => RollbackKeepsInv(s, pid, e);
        case Ok(staged) => MoveKeepsInv(s, pid, Staging(staged));
      }
    case CommitExchange(pid) => if s' != s { CommitKeepsInv(s, pid); }
    case Raise(pid) => if s' != s { RollbackKeepsInv(s, pid, Unavailable); }
    case Other(e) => if s' != s { OtherKeepsInv(cfg, s, e); }
  }

  lemma {:induction false} InvHolds(cfg: Settings, labels: seq<Label>)
    ensures Inv(Exec(cfg, labels))
  {
    if labels != [] {
      InvHolds(cfg, labels[..|labels| - 1]);
      NextKeepsInv(cfg, Exec(cfg, labels[..|labels| - 1]), labels[|labels| - 1]);
    }
  }

  // ----- what holds of every interleaving -----

  /** However the statements interleave, committed code consumptions, answered exchanges and the sessions they create
      match one to one: no code yields two sessions, and none is consumed without one. */
  lemma ConsumptionsMatchSessions(cfg: Settings, labels: seq<Label>)
    ensures var s := Exec(cfg, labels);
            && (forall i, j :: 0 <= i < j < |s.commits| ==>
                  s.commits[i].pid != s.commits[j].pid && s.commits[i].code != s.commits[j].code
                  && s.commits[i].sid != s.commits[j].sid)
            && (forall h <- s.tables.codes :: s.tables.codes[h].consumedAt.Some? <==> Consumed(s, h.preimage))
            && (forall pid <- s.procs :: Answered(s, pid) <==> Committed(s, pid))
            && (forall i :: 0 <= i < |s.commits| ==> CommitOk(s, s.commits[i]))
  {
    InvHolds(cfg, labels);
    var s := Exec(cfg, labels);
    forall pid | pid in s.procs ensures Answered(s, pid) <==> Committed(s, pid) { assert ProcOk(s, pid); }
  }

  ghost predicate Answered(s: State, pid: Pid)
    requires pid in s.procs
  {
    s.procs[pid].phase.Finished? && s.procs[pid].phase.answer.Tokens?
  }

  /** An exchange that has not answered with tokens (because it raised, or is still under way) has left no session
      behind and consumed no code. */
  lemma UnansweredLeavesNothing(cfg: Settings, labels: seq<Label>, pid: Pid)
    requires var s := Exec(cfg, labels); pid in s.procs && !Answered(s, pid)
    ensures var s := Exec(cfg, labels);
            && s.procs[pid].nonce !in s.tables.sessions
            && !Committed(s, pid)
  {
    InvHolds(cfg, labels);
    assert ProcOk(Exec(cfg, labels), pid);
  }

  /** Raising changes no committed row and frees the code for whoever presents it next. */
  lemma RaisingRestores(cfg: Settings, labels: seq<Label>, pid: Pid)
    requires var s := Exec(cfg, labels); pid in s.procs && s.procs[pid].Holds()
    ensures var s := Exec(cfg, labels);
            var s' := Next(cfg, s, Raise(pid));
            && s'.tables == s.tables && s'.commits == s.commits
            && Redeemable(s'.tables.codes, s.procs[pid].request, s.procs[pid].clk.now)
            && s.procs[pid].Hash() !in s'.locks
  {
    InvHolds(cfg, labels);
    assert HoldsOk(Exec(cfg, labels), pid);
  }

  /** A live exchange is for the configured client, and its staged pair is what staging for the code's owner yields. */
  ghost predicate StagedOk(cfg: Settings, s: State, pid: Pid) {
    pid in s.procs && !s.procs[pid].phase.Finished? ==>
      var p := s.procs[pid];
      && p.request.clientId == cfg.clientId
      && (p.phase.Staging? ==>
          && p.Hash() in s.tables.codes
          && StageLoginSession(cfg, s.tables.codes[p.Hash()].userId, p.clk, p.nonce) == Ok(p.phase.staged))
  }

  lemma StagedStep(cfg: Settings, s: State, l: Label, pid: Pid)
    requires Inv(s) && StagedOk(cfg, s, pid)
    ensures StagedOk(cfg, Next(cfg, s, l), pid)
  {
    if pid in s.procs && s.procs[pid].Holds() { assert HoldsOk(s, pid); }
    match l
    case Arrive(_, _, _, _) =>
    case Other(_) =>
    case CommitExchange(q) => if q != pid { CommitLeavesOthers(s, q, pid); }
    case _ => StatementsKeepTables(cfg, s, l, pid);
  }

  /** Before its commit no statement of an exchange changes the tables, or any other exchange. */
  lemma StatementsKeepTables(cfg: Settings, s: State, l: Label, pid: Pid)
    requires l.Consume? || l.LoadOwner? || l.Stage? || l.Raise?
    ensures Next(cfg, s, l).tables == s.tables && Next(cfg, s, l).commits == s.commits
    ensures l.pid != pid && pid in s.procs ==>
              pid in Next(cfg, s, l).procs && Next(cfg, s, l).procs[pid] == s.procs[pid]
    ensures pid !in s.procs ==> pid !in Next(cfg, s, l).procs
  {
  }

  /** A commit leaves every other exchange where it stands, and its code's row too. */
  lemma CommitLeavesOthers(s: State, q: Pid, pid: Pid)
    requires Inv(s) && pid != q
    ensures q in s.procs && s.procs[q].phase.Staging? && s.procs[q].Hash() in s.tables.codes ==>
              var s' := CommitStep(s, q);
              && (pid in s.procs <==> pid in s'.procs)
              && (pid in s.procs ==> s'.procs[pid] == s.procs[pid])
              && (pid in s.procs && s.procs[pid].Holds() ==>
                  s.procs[pid].Hash() in s'.tables.codes
                  && s'.tables.codes[s.procs[pid].Hash()] == s.tables.codes[s.procs[pid].Hash()])
  {
    if pid in s.procs && s.procs[pid].Holds() { assert HoldsOk(s, pid); }
    if q in s.procs && s.procs[q].Holds() { assert HoldsOk(s, q); }
  }

  lemma {:induction false} StagedHolds(cfg: Settings, labels: seq<Label>, pid: Pid)
    ensures StagedOk(cfg, Exec(cfg, labels), pid)
  {
    if labels != [] {
      var before := labels[..|labels| - 1];
      StagedHolds(cfg, before, pid);
      InvHolds(cfg, before);
      StagedStep(cfg, Exec(cfg, before), labels[|labels| - 1], pid);
    }
  }

  /** One commit: its code goes from redeemable to consumed and one new session appears, for the owner of the code. */
  ghost predicate Redeemed(s: State, s': State, c: Commit) {
    var h := Digest(c.code);
    && s'.commits == s.commits + [c] && s'.tables.users == s.tables.users
    && h in s.tables.codes && s.tables.codes[h].consumedAt.None?
    && h in s'.tables.codes && s'.tables.codes[h].consumedAt.Some?
    && s'.tables.codes == s.tables.codes[h := s.tables.codes[h].(consumedAt := s'.tables.codes[h].consumedAt)]
    && c.sid !in s.tables.sessions && c.sid in s'.tables.sessions
    && s'.tables.sessions == s.tables.sessions[c.sid := s'.tables.sessions[c.sid]]
    && s'.tables.sessions[c.sid].userId == s.tables.codes[h].userId
  }

  lemma CommitRedeems(cfg: Settings, s: State, pid: Pid)
    requires Inv(s) && StagedOk(cfg, s, pid) && pid in s.procs && s.procs[pid].phase.Staging?
    requires s.procs[pid].Hash() in s.tables.codes
    ensures var s' := CommitStep(s, pid);
            || (s'.tables == s.tables && s'.commits == s.commits)
            || Redeemed(s, s', Commit(pid, s.procs[pid].request.code, s.procs[pid].nonce))
  {
    assert HoldsOk(s, pid);
  }

  /** A statement of an exchange either changes no committed row or commits one redemption as a whole. */
  lemma StatementsCommitWhole(cfg: Settings, labels: seq<Label>, l: Label)
    requires !l.Other?
    ensures var s := Exec(cfg, labels);
            var s' := Next(cfg, s, l);
            || (s'.tables == s.tables && s'.commits == s.commits)
            || (l.CommitExchange? && l.pid in s.procs
                && Redeemed(s, s', Commit(l.pid, s.procs[l.pid].request.code, s.procs[l.pid].nonce)))
  {
    var s := Exec(cfg, labels);
    InvHolds(cfg, labels);
    match l
    case Arrive(_, _, _, _) =>
    case CommitExchange(pid) =>
      StagedHolds(cfg, labels, pid);
      if Next(cfg, s, l) != s { CommitRedeems(cfg, s, pid); }
    case Consume(pid) => StatementsKeepTables(cfg, s, l, pid);
    case LoadOwner(pid) => StatementsKeepTables(cfg, s, l, pid);
    case Stage(pid) => StatementsKeepTables(cfg, s, l, pid);
    case Raise(pid) => StatementsKeepTables(cfg, s, l, pid);
  }

  /** The owner of the code that an exchange holds is active. */
  ghost predicate OwnerActive(s: State, pid: Pid) {
    && pid in s.procs && s.procs[pid].Hash() in s.tables.codes
    && var uid := s.tables.codes[s.procs[pid].Hash()].userId; uid in s.tables.users && s.tables.users[uid].isActive
  }

  lemma StagedCommit(cfg: Settings, s: State, pid: Pid)
    requires Inv(s) && StagedOk(cfg, s, pid) && pid in s.procs && s.procs[pid].phase.Staging?
    ensures s.procs[pid].Hash() in s.tables.codes
    ensures var p := s.procs[pid];
            var s' := CommitStep(s, pid);
            var o := ExchangeCode(cfg, s.tables, p.request, p.clk, p.nonce, {});
            s'.tables == o.tables && s'.procs[pid].phase == Finished(o.response) <==> OwnerActive(s, pid)
  {
    assert HoldsOk(s, pid);
    CommitIsNew(s, pid);
  }

  /** Refinement: the commit of an interleaved exchange does to the tables, and answers, what one atomic exchange would
      do at that instant, exactly if the owner is active then. */
  lemma CommitIsAtomicExchange(cfg: Settings, labels: seq<Label>, pid: Pid)
    requires var s := Exec(cfg, labels); pid in s.procs && s.procs[pid].phase.Staging?
    ensures var s := Exec(cfg, labels);
            var p := s.procs[pid];
            var s' := Next(cfg, s, CommitExchange(pid));
            var o := ExchangeCode(cfg, s.tables, p.request, p.clk, p.nonce, {});
            && pid in s'.procs
            && (s'.tables == o.tables && s'.procs[pid].phase == Finished(o.response) <==> OwnerActive(s, pid))
  {
    InvHolds(cfg, labels);
    StagedHolds(cfg, labels, pid);
    StagedCommit(cfg, Exec(cfg, labels), pid);
  }
}
