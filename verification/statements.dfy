/** When each statement of a code exchange succeeds, waits or raises, at every reachable state of the interleaved
    exchanges; and that an exchange which is left to run completes as the atomic exchange does. */
module Statements {
  import opened Base
  import opened Security
  import opened Store
  import opened Credentials
  import opened Interleaving
  import opened LateDeactivation

  /** Only this exchange moved on; no committed row changed. */
  ghost predicate OnlyMoves(s: State, s': State, pid: Pid) {
    && pid in s.procs && pid in s'.procs && s'.procs == s.procs[pid := s'.procs[pid]]
    && s'.procs[pid] == s.procs[pid].(phase := s'.procs[pid].phase)
    && s'.tables == s.tables && s'.commits == s.commits && s'.drawn == s.drawn
  }

  predicate HoldsLock(s: State, pid: Pid)
    requires pid in s.procs
  {
    s.procs[pid].Hash() in s.locks && s.locks[s.procs[pid].Hash()] == pid
  }

  /** A request for the configured client starts; any other is answered at once. */
  lemma ArriveIff(cfg: Settings, labels: seq<Label>, pid: Pid, request: TokenRequest, clk: Clock, nonce: Nonce)
    ensures var s := Exec(cfg, labels);
            var s' := Next(cfg, s, Arrive(pid, request, clk, nonce));
            if pid in s.procs || nonce in s.drawn then s' == s
            else
              && s'.tables == s.tables && s'.locks == s.locks && s'.commits == s.commits
              && s'.procs == s.procs[pid := s'.procs[pid]] && s'.drawn == s.drawn + {nonce}
              && s'.procs[pid] == Proc(request, clk, nonce, if request.clientId == cfg.clientId then Started
                                                            else Finished(Failed(InvalidClient)))
  {
  }

  /** The consuming UPDATE takes the lock on its row exactly if the row matches, may be consumed now and is not locked
      by another exchange; it waits exactly if a matching row is locked; it refuses the code exactly if no row matches;
      and it raises for a violated constraint. Locks on other rows do not matter. */
  lemma ConsumeIff(cfg: Settings, labels: seq<Label>, pid: Pid)
    requires pid in Exec(cfg, labels).procs && Exec(cfg, labels).procs[pid].phase.Started?
    ensures var s := Exec(cfg, labels);
            var p := s.procs[pid];
            var s' := Next(cfg, s, Consume(pid));
            var matches, locked := Redeemable(s.tables.codes, p.request, p.clk.now), p.Hash() in s.locks;
            var allowed := matches && s.tables.codes[p.Hash()].(consumedAt := Some(p.clk.now)).Constraints();
            && OnlyMoves(s, s', pid)
            && (s'.procs[pid].phase.Holding? <==> matches && !locked && allowed)
            && (s'.procs[pid].phase.Holding? <==> HoldsLock(s', pid))
            && (s' == s <==> matches && locked)
            && (s'.procs[pid].phase == Finished(Failed(InvalidGrant)) <==> !matches)
            && (s'.procs[pid].phase == Finished(Failed(Unavailable)) <==> matches && !locked && !allowed)
            && (forall h <- s.locks :: h in s'.locks && s'.locks[h] == s.locks[h])
            && (forall h <- s'.locks :: h in s.locks || h == p.Hash())
  {
    InvHolds(cfg, labels);
    var s := Exec(cfg, labels);
    if s.procs[pid].Hash() in s.locks { assert s.procs[s.locks[s.procs[pid].Hash()]].Holds(); }
  }

  /** A code that any exchange has consumed is refused from then on. */
  lemma ConsumedIsRefused(cfg: Settings, labels: seq<Label>, pid: Pid)
    requires var s := Exec(cfg, labels);
             pid in s.procs && s.procs[pid].phase.Started? && Consumed(s, s.procs[pid].request.code)
    ensures Next(cfg, Exec(cfg, labels), Consume(pid)).procs[pid].phase == Finished(Failed(InvalidGrant))
  {
    InvHolds(cfg, labels);
    ConsumeIff(cfg, labels, pid);
  }

  /** Reading the owner goes on exactly if the owner is active, and otherwise refuses the code and frees the lock. */
  lemma LoadIff(cfg: Settings, labels: seq<Label>, pid: Pid)
    requires pid in Exec(cfg, labels).procs && Exec(cfg, labels).procs[pid].phase.Holding?
    ensures var s := Exec(cfg, labels);
            var s' := Next(cfg, s, LoadOwner(pid));
            && OnlyMoves(s, s', pid)
            && s'.procs[pid].phase == (if OwnerActive(s, pid) then Loaded else Finished(Failed(InvalidGrant)))
            && s'.locks == if OwnerActive(s, pid) then s.locks else s.locks - {s.procs[pid].Hash()}
  {
    InvHolds(cfg, labels);
    assert HoldsOk(Exec(cfg, labels), pid);
  }

  /** Staging goes on exactly if there is a second for a session and its token has not run out when it is decoded, and
      stages a row of the code's owner; otherwise it raises and frees the lock. */
  lemma StageIff(cfg: Settings, labels: seq<Label>, pid: Pid)
    requires pid in Exec(cfg, labels).procs && Exec(cfg, labels).procs[pid].phase.Loaded?
    requires var clk := Exec(cfg, labels).procs[pid].clk; cfg.Valid() && clk.now <= clk.recheck
    ensures var s := Exec(cfg, labels);
            var p := s.procs[pid];
            var s' := Next(cfg, s, Stage(pid));
            var goesOn := cfg.absoluteTtl >= SECOND && p.clk.recheck < NewExpiry(cfg, p.clk);
            && OnlyMoves(s, s', pid)
            && (s'.procs[pid].phase.Staging? <==> goesOn)
            && (!goesOn ==> s'.procs[pid].phase
                            == Finished(Failed(if cfg.absoluteTtl < SECOND then ServerError else InvalidRefreshToken)))
            && s'.locks == (if goesOn then s.locks else s.locks - {p.Hash()})
            && (goesOn ==>
                && p.Hash() in s.tables.codes
                && s'.procs[pid].phase.staged.row.userId == s.tables.codes[p.Hash()].userId
                && s'.procs[pid].phase.staged.pair.refresh.sid == p.nonce
                && (s'.procs[pid].phase.staged.row.Constraints() <==> p.clk.began < NewExpiry(cfg, p.clk)))
  {
    InvHolds(cfg, labels);
    var s := Exec(cfg, labels);
    assert HoldsOk(s, pid);
    StagingErrors(cfg, s.tables.codes[s.procs[pid].Hash()].userId, s.procs[pid].clk, s.procs[pid].nonce);
  }

  /** The commit is answered with the staged pair exactly if the staged row meets its constraints and its owner exists;
      it frees the lock in any case. */
  lemma CommitIff(cfg: Settings, labels: seq<Label>, pid: Pid)
    requires pid in Exec(cfg, labels).procs && Exec(cfg, labels).procs[pid].phase.Staging?
    ensures var s := Exec(cfg, labels);
            var p := s.procs[pid];
            var s' := Next(cfg, s, CommitExchange(pid));
            var fits := p.phase.staged.row.Constraints() && p.phase.staged.row.userId in s.tables.users;
            && pid in s'.procs && s'.locks == s.locks - {p.Hash()}
            && s'.procs[pid].phase == Finished(if fits then Tokens(p.phase.staged.pair) else Failed(Unavailable))
            && (!fits ==> OnlyMoves(s, s', pid))
            && (fits ==> Redeemed(s, s', Commit(pid, p.request.code, p.nonce)))
            && (fits ==> s'.tables.sessions[p.nonce] == p.phase.staged.row)
  {
    InvHolds(cfg, labels);
    StagedHolds(cfg, labels, pid);
    var s := Exec(cfg, labels);
    assert HoldsOk(s, pid) && ProcOk(s, pid);
    CommitIsNew(s, pid);
  }

  /** An exchange that has not answered can raise at any time; it is answered so, and its lock, if any, is freed. */
  lemma RaiseIff(cfg: Settings, labels: seq<Label>, pid: Pid)
    requires pid in Exec(cfg, labels).procs
    ensures var s := Exec(cfg, labels);
            var s' := Next(cfg, s, Raise(pid));
            if s.procs[pid].phase.Finished? then s' == s
            else
              && OnlyMoves(s, s', pid) && s'.procs[pid].phase == Finished(Failed(Unavailable))
              && s'.locks == if s.procs[pid].Holds() then s.locks - {s.procs[pid].Hash()} else s.locks
  {
  }

  /** Requests that neither insert nor delete codes never wait for an exchange. */
  lemma OthersDoNotWait(cfg: Settings, labels: seq<Label>, e: Event)
    requires !e.action.Exchange? && !e.action.IssueCode? && !e.action.PruneCodes?
    requires e.nonce !in Exec(cfg, labels).drawn
    ensures var s := Exec(cfg, labels);
            Next(cfg, s, Other(e)) == s.(tables := Step(cfg, s.tables, e).tables, drawn := s.drawn + {e.nonce})
  {
    var s := Exec(cfg, labels);
    InvHolds(cfg, labels);
    CodesUntouched(cfg, s.tables, e);
    forall h | h in s.locks ensures h in s.tables.codes { assert HoldsOk(s, s.locks[h]); }
  }

  /** The prune job waits exactly if it would delete a code that an exchange has locked. */
  lemma PruneWaitsIff(cfg: Settings, labels: seq<Label>, e: Event)
    requires e.action.PruneCodes? && e.nonce !in Exec(cfg, labels).drawn
    ensures var s := Exec(cfg, labels);
            var waits := e.faults !! {WriteRow, CommitWork}
                         && exists h <- s.locks :: h in s.tables.codes && s.tables.codes[h].expiresAt <= e.clk.now;
            Next(cfg, s, Other(e))
            == if waits then s else s.(tables := Step(cfg, s.tables, e).tables, drawn := s.drawn + {e.nonce})
  {
    var s := Exec(cfg, labels);
    InvHolds(cfg, labels);
    LockedRowsExist(s);
    PruneStep(cfg, s.tables, e);
  }

  lemma LockedRowsExist(s: State)
    requires Inv(s)
    ensures forall h <- s.locks :: h in s.tables.codes
  {
    forall h | h in s.locks ensures h in s.tables.codes { assert HoldsOk(s, s.locks[h]); }
  }

  lemma PruneStep(cfg: Settings, t: Tables, e: Event)
    requires e.action.PruneCodes?
    ensures var codes := Step(cfg, t, e).tables.codes;
            if e.faults !! {WriteRow, CommitWork}
            then forall h <- t.codes ::
                   (h in codes <==> t.codes[h].expiresAt > e.clk.now) && (h in codes ==> codes[h] == t.codes[h])
            else codes == t.codes
  {
  }

  // ----- progress -----

  /** The exchange has done to the tables, and answers, what the atomic exchange does from `t`. */
  ghost predicate Completed(cfg: Settings, t: Tables, s: State, pid: Pid, request: TokenRequest, clk: Clock,
                            nonce: Nonce) {
    var o := ExchangeCode(cfg, t, request, clk, nonce, {});
    pid in s.procs && s.tables == o.tables && s.procs[pid].phase == Finished(o.response)
  }

  lemma FinishedStays(cfg: Settings, s: State, pid: Pid, l: Label)
    requires pid in s.procs && s.procs[pid].phase.Finished?
    requires l in {Consume(pid), LoadOwner(pid), Stage(pid), CommitExchange(pid)}
    ensures Next(cfg, s, l) == s
  {
  }

  lemma FromStaging(cfg: Settings, labels: seq<Label>, pid: Pid)
    requires pid in Exec(cfg, labels).procs && Exec(cfg, labels).procs[pid].phase.Staging?
    requires OwnerActive(Exec(cfg, labels), pid)
    ensures var s := Exec(cfg, labels);
            var p := s.procs[pid];
            Completed(cfg, s.tables, Exec(cfg, labels + [CommitExchange(pid)]), pid, p.request, p.clk, p.nonce)
  {
    CommitIsAtomicExchange(cfg, labels, pid);
    ExecSnoc(cfg, labels, CommitExchange(pid));
  }

  lemma FromLoaded(cfg: Settings, labels: seq<Label>, pid: Pid)
    requires pid in Exec(cfg, labels).procs && Exec(cfg, labels).procs[pid].phase.Loaded?
    requires OwnerActive(Exec(cfg, labels), pid)
    ensures var s := Exec(cfg, labels);
            var p := s.procs[pid];
            Completed(cfg, s.tables, Exec(cfg, labels + [Stage(pid)] + [CommitExchange(pid)]), pid, p.request, p.clk,
                      p.nonce)
  {
    var s := Exec(cfg, labels);
    InvHolds(cfg, labels);
    StagedHolds(cfg, labels, pid);
    assert HoldsOk(s, pid);
    ExecSnoc(cfg, labels, Stage(pid));
    ExecSnoc(cfg, labels + [Stage(pid)], CommitExchange(pid));
    var s' := Exec(cfg, labels + [Stage(pid)]);
    if s'.procs[pid].phase.Staging? {
      FromStaging(cfg, labels + [Stage(pid)], pid);
    } else {
      FinishedStays(cfg, s', pid, CommitExchange(pid));
    }
  }

  lemma FromHolding(cfg: Settings, labels: seq<Label>, pid: Pid)
    requires pid in Exec(cfg, labels).procs && Exec(cfg, labels).procs[pid].phase.Holding?
    ensures var s := Exec(cfg, labels);
            var p := s.procs[pid];
            Completed(cfg, s.tables, Exec(cfg, labels + [LoadOwner(pid)] + [Stage(pid)] + [CommitExchange(pid)]), pid,
                      p.request, p.clk, p.nonce)
  {
    var s := Exec(cfg, labels);
    InvHolds(cfg, labels);
    StagedHolds(cfg, labels, pid);
    assert HoldsOk(s, pid);
    LoadIff(cfg, labels, pid);
    ExecSnoc(cfg, labels, LoadOwner(pid));
    var read := labels + [LoadOwner(pid)];
    if OwnerActive(s, pid) {
      FromLoaded(cfg, read, pid);
    } else {
      ExecSnoc(cfg, read, Stage(pid));
      FinishedStays(cfg, Exec(cfg, read), pid, Stage(pid));
      ExecSnoc(cfg, read + [Stage(pid)], CommitExchange(pid));
      FinishedStays(cfg, Exec(cfg, read), pid, CommitExchange(pid));
    }
  }

  function Statements(pid: Pid): seq<Label> { [Consume(pid)] + [LoadOwner(pid)] + [Stage(pid)] + [CommitExchange(pid)] }

  lemma FromStarted(cfg: Settings, labels: seq<Label>, pid: Pid)
    requires pid in Exec(cfg, labels).procs && Exec(cfg, labels).procs[pid].phase.Started?
    requires Exec(cfg, labels).procs[pid].Hash() !in Exec(cfg, labels).locks
    ensures var s := Exec(cfg, labels);
            var p := s.procs[pid];
            Completed(cfg, s.tables, Exec(cfg, labels + Statements(pid)), pid, p.request, p.clk, p.nonce)
  {
    var s := Exec(cfg, labels);
    ConsumeIff(cfg, labels, pid);
    StagedHolds(cfg, labels, pid);
    ExecSnoc(cfg, labels, Consume(pid));
    var taken := labels + [Consume(pid)];
    assert labels + Statements(pid) == taken + [LoadOwner(pid)] + [Stage(pid)] + [CommitExchange(pid)];
    if Exec(cfg, taken).procs[pid].phase.Holding? {
      FromHolding(cfg, taken, pid);
    } else {
      RestChangesNothing(cfg, taken, pid);
    }
  }

  lemma RestChangesNothing(cfg: Settings, labels: seq<Label>, pid: Pid)
    requires pid in Exec(cfg, labels).procs && Exec(cfg, labels).procs[pid].phase.Finished?
    ensures Exec(cfg, labels + [LoadOwner(pid)] + [Stage(pid)] + [CommitExchange(pid)]) == Exec(cfg, labels)
  {
    ExecSnoc(cfg, labels, LoadOwner(pid));
    ExecSnoc(cfg, labels + [LoadOwner(pid)], Stage(pid));
    ExecSnoc(cfg, labels + [LoadOwner(pid)] + [Stage(pid)], CommitExchange(pid));
    FinishedStays(cfg, Exec(cfg, labels), pid, LoadOwner(pid));
    FinishedStays(cfg, Exec(cfg, labels), pid, Stage(pid));
    FinishedStays(cfg, Exec(cfg, labels), pid, CommitExchange(pid));
  }

  lemma AllChangeNothing(cfg: Settings, labels: seq<Label>, pid: Pid)
    requires pid in Exec(cfg, labels).procs && Exec(cfg, labels).procs[pid].phase.Finished?
    ensures Exec(cfg, labels + Statements(pid)) == Exec(cfg, labels)
  {
    ExecSnoc(cfg, labels, Consume(pid));
    FinishedStays(cfg, Exec(cfg, labels), pid, Consume(pid));
    RestChangesNothing(cfg, labels + [Consume(pid)], pid);
    assert labels + Statements(pid)
           == labels + [Consume(pid)] + [LoadOwner(pid)] + [Stage(pid)] + [CommitExchange(pid)];
  }

  /** Progress: whatever else is under way, a new exchange whose code is not locked, left to run through its four
      statements, ends with the tables and the answer of the atomic exchange. */
  lemma ExchangeCompletes(cfg: Settings, labels: seq<Label>, pid: Pid, request: TokenRequest, clk: Clock, nonce: Nonce)
    requires var s := Exec(cfg, labels); pid !in s.procs && nonce !in s.drawn && Digest(request.code) !in s.locks
    ensures Completed(cfg, Exec(cfg, labels).tables,
                      Exec(cfg, labels + [Arrive(pid, request, clk, nonce)] + Statements(pid)), pid, request, clk,
                      nonce)
  {
    var arrival := Arrive(pid, request, clk, nonce);
    ExecSnoc(cfg, labels, arrival);
    ArriveIff(cfg, labels, pid, request, clk, nonce);
    if request.clientId == cfg.clientId {
      FromStarted(cfg, labels + [arrival], pid);
    } else {
      AllChangeNothing(cfg, labels + [arrival], pid);
    }
  }
}
