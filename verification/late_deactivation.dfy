/** A limit of the code exchange: the owner's row is read without a lock, so an account that is deactivated between that
    read and the commit still gets its session; and this is the only way in which an inactive account gets one. */
module LateDeactivation {
  import opened Base
  import opened Security
  import opened Store
  import opened Credentials
  import opened Interleaving

  // ----- every session's owner was active when its exchange read it -----

  predicate OwnerRead(phase: Phase) { phase.Loaded? || phase.Staging? }

  ghost predicate SameOwner(s: State, s': State, pid: Pid) {
    && pid in s.procs && pid in s'.procs && s.procs[pid].request == s'.procs[pid].request
    && var h := s.procs[pid].Hash();
       h in s.tables.codes && h in s'.tables.codes && s.tables.codes[h].userId == s'.tables.codes[h].userId
  }

  lemma OwnerReadStep(cfg: Settings, s: State, l: Label, pid: Pid)
    requires Inv(s) && pid in Next(cfg, s, l).procs && OwnerRead(Next(cfg, s, l).procs[pid].phase)
    ensures SameOwner(s, Next(cfg, s, l), pid)
    ensures OwnerRead(s.procs[pid].phase) || (s.procs[pid].phase.Holding? && OwnerActive(s, pid))
  {
    if pid in s.procs && s.procs[pid].Holds() { assert HoldsOk(s, pid); }
    match l
    case Arrive(_, _, _, _) =>
    case Other(_) =>
    case CommitExchange(q) => if q != pid { CommitLeavesOthers(s, q, pid); }
    case _ => StatementReadsOwner(cfg, s, l, pid);
  }

  lemma StatementReadsOwner(cfg: Settings, s: State, l: Label, pid: Pid)
    requires Inv(s) && pid in Next(cfg, s, l).procs && OwnerRead(Next(cfg, s, l).procs[pid].phase)
    requires l.Consume? || l.LoadOwner? || l.Stage? || l.Raise?
    ensures SameOwner(s, Next(cfg, s, l), pid)
    ensures OwnerRead(s.procs[pid].phase) || (s.procs[pid].phase.Holding? && OwnerActive(s, pid))
  {
    StatementsKeepTables(cfg, s, l, pid);
    if pid in s.procs && s.procs[pid].Holds() { assert HoldsOk(s, pid); }
  }

  /** After n steps the exchange held the lock on its code, whose owner, the same as now, was active. */
  ghost predicate ReadActive(cfg: Settings, labels: seq<Label>, n: nat, pid: Pid) {
    && n <= |labels|
    && var s := Exec(cfg, labels[..n]);
       SameOwner(s, Exec(cfg, labels), pid) && s.procs[pid].phase.Holding? && OwnerActive(s, pid)
  }

  /** However the statements interleave, an exchange that is about to commit found its owner active while it held the
      lock on its code. */
  lemma {:induction false} OwnerWasActive(cfg: Settings, labels: seq<Label>, pid: Pid)
    requires var s := Exec(cfg, labels); pid in s.procs && OwnerRead(s.procs[pid].phase)
    ensures exists n: nat :: ReadActive(cfg, labels, n, pid)
  {
    var before, l := labels[..|labels| - 1], labels[|labels| - 1];
    InvHolds(cfg, before);
    OwnerReadStep(cfg, Exec(cfg, before), l, pid);
    if OwnerRead(Exec(cfg, before).procs[pid].phase) {
      OwnerWasActive(cfg, before, pid);
      var n: nat :| ReadActive(cfg, before, n, pid);
      assert before[..n] == labels[..n];
      assert ReadActive(cfg, labels, n, pid);
    } else {
      assert ReadActive(cfg, labels, |before|, pid);
    }
  }

  // ----- but it need not be active at the commit -----

  ghost predicate InactiveOwnerHasSession(s: State, sid: Nonce) {
    && sid in s.tables.sessions
    && var uid := s.tables.sessions[sid].userId; uid in s.tables.users && !s.tables.users[uid].isActive
  }

  function DeactivationOf(uid: UserId, nonce: Nonce): Event {
    Event(Deactivate(uid), Clock(0, 0, 0, 0), nonce, {})
  }

  lemma DeactivationStep(cfg: Settings, s: State, pid: Pid, uid: UserId, nonce: Nonce)
    requires Inv(s) && pid in s.procs && s.procs[pid].phase.Loaded? && nonce !in s.drawn
    requires OwnerActive(s, pid) && uid == s.tables.codes[s.procs[pid].Hash()].userId
    ensures var s' := Next(cfg, s, Other(DeactivationOf(uid, nonce)));
            && s'.tables == s.tables.(users := s.tables.users[uid := s.tables.users[uid].(isActive := false)])
            && s'.procs == s.procs && s'.locks == s.locks
  {
    forall h | h in s.locks ensures h in s.tables.codes {
      assert HoldsOk(s, s.locks[h]);
    }
  }

  lemma StagingStep(cfg: Settings, s: State, pid: Pid)
    requires cfg.Valid() && Inv(s) && pid in s.procs && s.procs[pid].phase.Loaded?
    requires s.procs[pid].clk.now <= s.procs[pid].clk.recheck && LoginHasTime(cfg, s.procs[pid].clk)
    ensures var s' := Next(cfg, s, Stage(pid));
            && s'.tables == s.tables && pid in s'.procs && s'.procs[pid].phase.Staging?
            && s'.procs[pid].nonce == s.procs[pid].nonce && s'.procs[pid].Hash() == s.procs[pid].Hash()
            && s'.procs[pid].phase.staged.row.Constraints() && s.procs[pid].Hash() in s.tables.codes
            && s'.procs[pid].phase.staged.row.userId == s.tables.codes[s.procs[pid].Hash()].userId
  {
    assert HoldsOk(s, pid);
    var p := s.procs[pid];
    StagedRowIsSound(cfg, s.tables.codes[p.Hash()].userId, p.clk, p.nonce);
  }

  lemma CommitSucceeds(cfg: Settings, s: State, pid: Pid)
    requires Inv(s) && pid in s.procs && s.procs[pid].phase.Staging? && s.procs[pid].Hash() in s.tables.codes
    requires var row := s.procs[pid].phase.staged.row; row.Constraints() && row.userId in s.tables.users
    ensures var row, s' := s.procs[pid].phase.staged.row, Next(cfg, s, CommitExchange(pid));
            && s'.tables.users == s.tables.users
            && s.procs[pid].nonce in s'.tables.sessions && s'.tables.sessions[s.procs[pid].nonce] == row
  {
    assert ProcOk(s, pid);
  }

  /** Staging and commit after the owner was deactivated. */
  lemma RestOfExchange(cfg: Settings, labels: seq<Label>, pid: Pid)
    requires var s := Exec(cfg, labels);
             && cfg.Valid() && pid in s.procs && s.procs[pid].phase.Loaded?
             && s.procs[pid].clk.now <= s.procs[pid].clk.recheck && LoginHasTime(cfg, s.procs[pid].clk)
    requires var s := Exec(cfg, labels);
             s.procs[pid].Hash() in s.tables.codes && s.tables.codes[s.procs[pid].Hash()].userId in s.tables.users
    ensures var s, s' := Exec(cfg, labels), Exec(cfg, labels + [Stage(pid)] + [CommitExchange(pid)]);
            && s'.tables.users == s.tables.users
            && s.procs[pid].nonce in s'.tables.sessions
            && s'.tables.sessions[s.procs[pid].nonce].userId == s.tables.codes[s.procs[pid].Hash()].userId
  {
    InvHolds(cfg, labels);
    StagingStep(cfg, Exec(cfg, labels), pid);
    ExecSnoc(cfg, labels, Stage(pid));
    InvHolds(cfg, labels + [Stage(pid)]);
    CommitSucceeds(cfg, Exec(cfg, labels + [Stage(pid)]), pid);
    ExecSnoc(cfg, labels + [Stage(pid)], CommitExchange(pid));
  }

  /** From every reachable state in which an exchange has read its active owner, a deactivation that comes first still
      ends in a session of the inactive account. */
  lemma DeactivationComesTooLate(cfg: Settings, labels: seq<Label>, pid: Pid, nonce: Nonce)
    requires cfg.Valid() && nonce !in Exec(cfg, labels).drawn && OwnerActive(Exec(cfg, labels), pid)
    requires var p := Exec(cfg, labels).procs[pid];
             p.phase.Loaded? && p.clk.now <= p.clk.recheck && LoginHasTime(cfg, p.clk)
    ensures var p := Exec(cfg, labels).procs[pid];
            var uid := Exec(cfg, labels).tables.codes[p.Hash()].userId;
            var late := labels + [Other(DeactivationOf(uid, nonce))] + [Stage(pid)] + [CommitExchange(pid)];
            InactiveOwnerHasSession(Exec(cfg, late), p.nonce)
  {
    var s := Exec(cfg, labels);
    var uid := s.tables.codes[s.procs[pid].Hash()].userId;
    var deactivation := Other(DeactivationOf(uid, nonce));
    InvHolds(cfg, labels);
    DeactivationStep(cfg, s, pid, uid, nonce);
    ExecSnoc(cfg, labels, deactivation);
    RestOfExchange(cfg, labels + [deactivation], pid);
  }

  lemma ExecSnoc(cfg: Settings, labels: seq<Label>, l: Label)
    ensures Exec(cfg, labels + [l]) == Next(cfg, Exec(cfg, labels), l)
  {
    assert (labels + [l])[..|labels + [l]| - 1] == labels;
  }

  // ----- such a state is reachable -----

  const DEMO := Settings(1, 1, SECOND * 86_400, 0, 60, SECOND, 0, "client", {"uri"})
  const CHALLENGE := "0123456789012345678901234567890123456789012"
  const READINGS := Clock(0, 0, 0, 0)
  const DEMO_USER := NEW_USER.(verifiedAt := Some(0))
  const DEMO_CODE := CodeRow(1, "client", "uri", CHALLENGE, 0, 60 * SECOND, None)
  const REGISTERS := Other(Event(RegisterTrusted(1), READINGS, 1, {}))
  const ASKED := AuthorizationRequest("client", "uri", true, CHALLENGE)
  const ISSUES := Other(Event(IssueCode(1, true, ASKED), READINGS, 2, {}))
  const REQUEST := TokenRequest(2, "client", "uri", CHALLENGE)

  lemma DemoCodeIssued()
    ensures Exec(DEMO, [REGISTERS] + [ISSUES])
            == State(Tables(map[1 := DEMO_USER], map[], map[Digest(2) := DEMO_CODE]), map[], map[], [], {1, 2})
  {
    assert [] + [REGISTERS] == [REGISTERS];
    ExecSnoc(DEMO, [], REGISTERS);
    assert Exec(DEMO, [REGISTERS]) == State(Tables(map[1 := DEMO_USER], map[], map[]), map[], map[], [], {1});
    ExecSnoc(DEMO, [REGISTERS], ISSUES);
    assert Exec(DEMO, [REGISTERS] + [ISSUES]).tables.codes == map[Digest(2) := DEMO_CODE];
  }

  function DemoLabels(): seq<Label> {
    [REGISTERS] + [ISSUES] + [Arrive(0, REQUEST, READINGS, 3)] + [Consume(0)] + [LoadOwner(0)]
  }

  lemma DemoOwnerLoaded()
    ensures var s := Exec(DEMO, DemoLabels());
            && OwnerActive(s, 0) && s.procs[0] == Proc(REQUEST, READINGS, 3, Loaded)
            && 4 !in s.drawn && s.tables.codes[Digest(2)].userId == 1
  {
    DemoCodeIssued();
    var start := [REGISTERS] + [ISSUES];
    ExecSnoc(DEMO, start, Arrive(0, REQUEST, READINGS, 3));
    ExecSnoc(DEMO, start + [Arrive(0, REQUEST, READINGS, 3)], Consume(0));
    ExecSnoc(DEMO, start + [Arrive(0, REQUEST, READINGS, 3)] + [Consume(0)], LoadOwner(0));
  }

  ghost predicate EndsWithInactiveOwner(cfg: Settings, labels: seq<Label>, sid: Nonce) {
    cfg.Valid() && InactiveOwnerHasSession(Exec(cfg, labels), sid)
  }

  /** So there is a run of a few statements in which a deactivated account gets a session. */
  lemma InactiveAccountGetsSession()
    ensures exists cfg, labels, sid :: EndsWithInactiveOwner(cfg, labels, sid)
  {
    DemoOwnerLoaded();
    DeactivationComesTooLate(DEMO, DemoLabels(), 0, 4);
    var late := DemoLabels() + [Other(DeactivationOf(1, 4))] + [Stage(0)] + [CommitExchange(0)];
    assert EndsWithInactiveOwner(DEMO, late, 3);
  }
}
