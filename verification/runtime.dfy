/** `MaintenanceWorkerRuntime` of src/todo_api/background/maintenance_runtime.py: one event-loop runner and one database
    per worker process, created on demand and released on shutdown, whatever fails. */
module MaintenanceRuntime {
  import opened Base

  type Id = nat

  /** What the runtime does to the outside: each runner and each database has its own id. */
  datatype Effect =
    | RunnerOpened(runner: Id)
    | DatabaseCreated(database: Id, runner: Id)
    | Operated(database: Id, runner: Id)
    | DisposeAttempted(database: Id, runner: Id)
    | RunnerClosed(runner: Id)

  datatype State = State(runner: Option<Id>, database: Option<Id>, effects: seq<Effect>, next: Id)

  const IDLE := State(None, None, [], 0)

  /** Calls, with what fails inside them. */
  datatype Call =
    | InitializeCall(loopFails: bool)
    | RunCall(loopFails: bool, factoryFails: bool, operationFails: bool)
    | ShutdownCall(disposeFails: bool)

  function Initialized(s: State, loopFails: bool): State {
    if s.runner.Some? || loopFails then s
    else s.(runner := Some(s.next), effects := s.effects + [RunnerOpened(s.next)], next := s.next + 1)
  }

  /** `_execute` on an initialized runtime. */
  function Executed(s: State, factoryFails: bool): State
    requires s.runner.Some?
  {
    var s' := if s.database.Some? || factoryFails then s
              else s.(database := Some(s.next), effects := s.effects + [DatabaseCreated(s.next, s.runner.value)],
                      next := s.next + 1);
    if s'.database.None? then s' else s'.(effects := s'.effects + [Operated(s'.database.value, s.runner.value)])
  }

  function ShutDown(s: State): State {
    var idle := s.(runner := None, database := None);
    if s.runner.None? then idle
    else
      var disposed := if s.database.Some? then [DisposeAttempted(s.database.value, s.runner.value)] else [];
      idle.(effects := s.effects + disposed + [RunnerClosed(s.runner.value)])
  }

  function Apply(s: State, c: Call): State {
    match c
    case InitializeCall(loopFails) => Initialized(s, loopFails)
    case RunCall(loopFails, factoryFails, _) =>
      var s' := Initialized(s, loopFails);
      if s'.runner.None? then s' else Executed(s', factoryFails)
    case ShutdownCall(_) => ShutDown(s)
  }

  function RunCalls(calls: seq<Call>): State {
    if calls == [] then IDLE else Apply(RunCalls(calls[..|calls| - 1]), calls[|calls| - 1])
  }

  /** The runtime as it runs; `effects` records what it does outside. Methods answer false when they raise. */
  class MaintenanceWorkerRuntime {
    var runner: Option<Id>
    var database: Option<Id>
    var effects: seq<Effect>
    var next: Id

    function Abstract(): State
      reads this
    {
      State(runner, database, effects, next)
    }

    constructor ()
      ensures Abstract() == IDLE
    {
      runner, database, effects, next := None, None, [], 0;
    }

    method Initialize(loopFails: bool) returns (ok: bool)
      modifies this
      ensures Abstract() == Initialized(old(Abstract()), loopFails)
      ensures ok == runner.Some?
    {
      if runner.Some? { return true; }
      if loopFails { return false; }
      effects := effects + [RunnerOpened(next)];
      runner := Some(next);
      next := next + 1;
      ok := true;
    }

    method Run(loopFails: bool, factoryFails: bool, operationFails: bool) returns (ok: bool)
      modifies this
      ensures Abstract() == Apply(old(Abstract()), RunCall(loopFails, factoryFails, operationFails))
      ensures ok <==> (old(runner).Some? || !loopFails) && (old(database).Some? || !factoryFails) && !operationFails
      ensures ok ==> runner.Some? && database.Some?
    {
      ok := Initialize(loopFails);
      if !ok { return; }
      if database.None? {
        if factoryFails { return false; }
        effects := effects + [DatabaseCreated(next, runner.value)];
        database := Some(next);
        next := next + 1;
      }
      effects := effects + [Operated(database.value, runner.value)];
      ok := !operationFails;
    }

    /** The fields are emptied first; a failing dispose still closes the runner and then propagates. */
    method Shutdown(disposeFails: bool) returns (ok: bool)
      modifies this
      ensures Abstract() == ShutDown(old(Abstract()))
      ensures ok == (old(runner).None? || old(database).None? || !disposeFails)
    {
      var oldRunner, oldDatabase := runner, database;
      runner, database := None, None;
      if oldRunner.None? { return true; }
      ok := true;
      if oldDatabase.Some? {
        effects := effects + [DisposeAttempted(oldDatabase.value, oldRunner.value)];
        ok := !disposeFails;
      }
      effects := effects + [RunnerClosed(oldRunner.value)];
    }
  }

  // ----- conservation -----

  function Count(effects: seq<Effect>, e: Effect): nat {
    if effects == [] then 0
    else Count(effects[..|effects| - 1], e) + if effects[|effects| - 1] == e then 1 else 0
  }

  predicate Uses(e: Effect, runner: Id) {
    (e.DatabaseCreated? || e.Operated? || e.DisposeAttempted?) && e.runner == runner
  }

  ghost predicate IsOpen(effects: seq<Effect>, runner: Id) {
    Count(effects, RunnerOpened(runner)) == Count(effects, RunnerClosed(runner)) + 1
  }

  /** A runner is used only between its opening and its closing. */
  ghost predicate UsedWhileOpen(effects: seq<Effect>, runner: Id) {
    effects != [] ==>
      && UsedWhileOpen(effects[..|effects| - 1], runner)
      && (Uses(effects[|effects| - 1], runner) ==> IsOpen(effects[..|effects| - 1], runner))
  }

  lemma Append(effects: seq<Effect>, e: Effect, x: Effect, runner: Id)
    ensures Count(effects + [x], e) == Count(effects, e) + if x == e then 1 else 0
    ensures UsedWhileOpen(effects + [x], runner)
            <==> UsedWhileOpen(effects, runner) && (Uses(x, runner) ==> IsOpen(effects, runner))
  {
    assert (effects + [x])[..|effects + [x]| - 1] == effects;
  }

  /** Every runner opened is closed or live, every database created is disposed of on its own runner or live, each
      once. */
  ghost predicate Balanced(s: State, d: Id, r: Id) {
    && (s.database.Some? ==> s.runner.Some?)
    && (s.runner.Some? ==> s.runner.value < s.next) && (s.database.Some? ==> s.database.value < s.next)
    && (r >= s.next ==> Count(s.effects, RunnerOpened(r)) == 0)
    && (d >= s.next ==> Count(s.effects, DatabaseCreated(d, r)) == 0)
    && Count(s.effects, RunnerOpened(r)) <= 1 && Count(s.effects, DatabaseCreated(d, r)) <= 1
    && Count(s.effects, RunnerOpened(r)) == Count(s.effects, RunnerClosed(r)) + (if s.runner == Some(r) then 1 else 0)
    && Count(s.effects, DatabaseCreated(d, r))
       == Count(s.effects, DisposeAttempted(d, r)) + (if s.database == Some(d) && s.runner == Some(r) then 1 else 0)
    && (Count(s.effects, Operated(d, r)) > 0 ==> Count(s.effects, DatabaseCreated(d, r)) == 1)
    && UsedWhileOpen(s.effects, r)
  }

  /** One more effect, counted for everything that the balance speaks of. */
  lemma AppendCounts(effects: seq<Effect>, x: Effect, d: Id, r: Id)
    ensures Count(effects + [x], RunnerOpened(r))
            == Count(effects, RunnerOpened(r)) + if x == RunnerOpened(r) then 1 else 0
    ensures Count(effects + [x], RunnerClosed(r))
            == Count(effects, RunnerClosed(r)) + if x == RunnerClosed(r) then 1 else 0
    ensures Count(effects + [x], DatabaseCreated(d, r))
            == Count(effects, DatabaseCreated(d, r)) + if x == DatabaseCreated(d, r) then 1 else 0
    ensures Count(effects + [x], DisposeAttempted(d, r))
            == Count(effects, DisposeAttempted(d, r)) + if x == DisposeAttempted(d, r) then 1 else 0
    ensures Count(effects + [x], Operated(d, r))
            == Count(effects, Operated(d, r)) + if x == Operated(d, r) then 1 else 0
    ensures UsedWhileOpen(effects + [x], r)
            <==> UsedWhileOpen(effects, r) && (Uses(x, r) ==> IsOpen(effects, r))
  {
    Append(effects, RunnerOpened(r), x, r);
    Append(effects, RunnerClosed(r), x, r);
    Append(effects, DatabaseCreated(d, r), x, r);
    Append(effects, DisposeAttempted(d, r), x, r);
    Append(effects, Operated(d, r), x, r);
  }

  lemma InitializedBalanced(s: State, loopFails: bool, d: Id, r: Id)
    requires Balanced(s, d, r)
    ensures Balanced(Initialized(s, loopFails), d, r)
  {
    AppendCounts(s.effects, RunnerOpened(s.next), d, r);
  }

  lemma ExecutedBalanced(s: State, factoryFails: bool, d: Id, r: Id)
    requires Balanced(s, d, r) && s.runner.Some?
    ensures Balanced(Executed(s, factoryFails), d, r)
  {
    if s.database.Some? {
      AppendCounts(s.effects, Operated(s.database.value, s.runner.value), d, r);
    } else {
      var created := DatabaseCreated(s.next, s.runner.value);
      AppendCounts(s.effects, created, d, r);
      AppendCounts(s.effects + [created], Operated(s.next, s.runner.value), d, r);
    }
  }

  lemma ShutDownBalanced(s: State, d: Id, r: Id)
    requires Balanced(s, d, r)
    ensures Balanced(ShutDown(s), d, r)
  {
    if s.runner.Some? {
      if s.database.Some? {
        var disposed := DisposeAttempted(s.database.value, s.runner.value);
        AppendCounts(s.effects, disposed, d, r);
        AppendCounts(s.effects + [disposed], RunnerClosed(s.runner.value), d, r);
      } else {
        assert s.effects + [] == s.effects;
        AppendCounts(s.effects, RunnerClosed(s.runner.value), d, r);
      }
    }
  }

  /** Conservation over any sequence of initialize, run and shutdown, including failing operations and a failing
      dispose: at most one runner and one database are live, a live database has a live runner, each database's
      disposal is attempted exactly once on the runner that it was created and used with, and each runner is closed
      exactly once, after its last use. */
  lemma {:induction false} RunnersAndDatabasesBalance(calls: seq<Call>, d: Id, r: Id)
    ensures Balanced(RunCalls(calls), d, r)
  {
    if calls != [] {
      var s, c := RunCalls(calls[..|calls| - 1]), calls[|calls| - 1];
      RunnersAndDatabasesBalance(calls[..|calls| - 1], d, r);
      match c
      case InitializeCall(loopFails) => InitializedBalanced(s, loopFails, d, r);
      case RunCall(loopFails, factoryFails, _) =>
        InitializedBalanced(s, loopFails, d, r);
        if Initialized(s, loopFails).runner.Some? { ExecutedBalanced(Initialized(s, loopFails), factoryFails, d, r); }
      case ShutdownCall(_) => ShutDownBalanced(s, d, r);
    }
  }

  lemma NoOperation(effects: seq<Effect>, x: Effect, d: Id, r: Id)
    requires !x.Operated?
    ensures Count(effects + [x], Operated(d, r)) == Count(effects, Operated(d, r))
  {
    AppendCounts(effects, x, d, r);
  }

  /** A run operates, exactly once, on the runner and the database that are then live, exactly if both are there or can
      be made; what was live stays in use. */
  lemma RunOperatesOnce(s: State, loopFails: bool, factoryFails: bool, operationFails: bool, d: Id, r: Id)
    ensures var s' := Apply(s, RunCall(loopFails, factoryFails, operationFails));
            var runs := (s.runner.Some? || !loopFails) && (s.database.Some? || !factoryFails);
            && (s.runner.Some? ==> s'.runner == s.runner) && (s.database.Some? ==> s'.database == s.database)
            && (runs ==>
                && s'.runner.Some? && s'.database.Some?
                && s'.effects != [] && s'.effects[|s'.effects| - 1] == Operated(s'.database.value, s'.runner.value))
            && Count(s'.effects, Operated(d, r))
               == Count(s.effects, Operated(d, r))
                  + if runs && s'.database == Some(d) && s'.runner == Some(r) then 1 else 0
  {
    var ready := Initialized(s, loopFails);
    NoOperation(s.effects, RunnerOpened(s.next), d, r);
    if ready.runner.Some? {
      var created := DatabaseCreated(ready.next, ready.runner.value);
      NoOperation(ready.effects, created, d, r);
      var id := if ready.database.Some? then ready.database.value else ready.next;
      var before := if ready.database.Some? then ready.effects else ready.effects + [created];
      AppendCounts(before, Operated(id, ready.runner.value), d, r);
    }
  }

  /** After a shutdown nothing is left: as many closings as openings and as many disposals as creations. */
  lemma ShutdownReleasesAll(calls: seq<Call>, disposeFails: bool, d: Id, r: Id)
    ensures var effects := RunCalls(calls + [ShutdownCall(disposeFails)]).effects;
            && Count(effects, RunnerOpened(r)) == Count(effects, RunnerClosed(r))
            && Count(effects, DatabaseCreated(d, r)) == Count(effects, DisposeAttempted(d, r))
  {
    var all := calls + [ShutdownCall(disposeFails)];
    assert all[..|all| - 1] == calls;
    RunnersAndDatabasesBalance(all, d, r);
  }
}
