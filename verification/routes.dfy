/** The Todo handlers of src/todo_api/api/v1/routes/todos.py as they run one after another: a read answers from the
    cache or fills it, a write commits and then clears its user's entries. Each handler is proved against the steps of
    module `Cache`. */
module TodoRoutes {
  import opened Base
  import opened Todos
  import opened Listing
  import opened Cache

  datatype Stored = Stored(reply: Reply, expiresAt: Time)

  /** The cache backend: entries with their own expiry, cleared by user. A failing backend changes nothing. */
  class ReadCache {
    var entries: map<(UserId, Read), Stored>

    constructor ()
      ensures entries == map[]
    {
      entries := map[];
    }

    method Get(userId: UserId, read: Read, now: Time) returns (reply: Option<Reply>)
      ensures reply.Some? <==> (userId, read) in entries && now < entries[(userId, read)].expiresAt
      ensures reply.Some? ==> reply.value == entries[(userId, read)].reply
    {
      if (userId, read) !in entries || entries[(userId, read)].expiresAt <= now { return None; }
      reply := Some(entries[(userId, read)].reply);
    }

    method Put(userId: UserId, read: Read, reply: Reply, expiresAt: Time, ok: bool)
      modifies this
      ensures entries == if ok then old(entries)[(userId, read) := Stored(reply, expiresAt)] else old(entries)
    {
      if ok { entries := entries[(userId, read) := Stored(reply, expiresAt)]; }
    }

    /** `invalidate_todo_cache`: a failure is logged and swallowed. */
    method Invalidate(userId: UserId, ok: bool)
      modifies this
      ensures entries == if ok then map k | k in old(entries) && k.0 != userId :: old(entries)[k] else old(entries)
    {
      if ok { entries := map k | k in entries && k.0 != userId :: entries[k]; }
    }
  }

  /** The backend holds the replies and expiries of the modelled entries. */
  ghost predicate Mirrors(entries: map<(UserId, Read), Stored>, modelled: map<(UserId, Read), CacheEntry>) {
    && entries.Keys == modelled.Keys
    && forall k <- entries :: entries[k] == Stored(modelled[k].reply, modelled[k].expiresAt)
  }

  /** Nothing under way: no read between its query and its store, no write between its commit and its clear. */
  ghost predicate Idle(s: State) { s.fills == map[] && s.clears == map[] }

  ghost predicate AllCoherent(fold: char -> string, s: State) { forall u :: Coherent(fold, s, u) }

  function ReadSteps(userId: UserId, read: Read, queries: nat, stores: nat, ok: bool): seq<Label> {
    [StartRead(0, userId, read), Tick(queries), QueryTable(0), Tick(stores), StoreReply(0, ok)]
  }

  function WriteSteps(call: Call, clears: nat, ok: bool): seq<Label> {
    [Write(0, call), Tick(clears), ClearUser(0, ok)]
  }

  ghost function Steps(fold: char -> string, ttl: Time, s: State, labels: seq<Label>): State
    decreases |labels|
  {
    if labels == [] then s else Steps(fold, ttl, Next(fold, ttl, s, labels[0]), labels[1..])
  }

  lemma {:induction false} StepsAreExec(fold: char -> string, ttl: Time, start: State, before: seq<Label>,
                                        labels: seq<Label>)
    ensures Exec(fold, ttl, start, before + labels) == Steps(fold, ttl, Exec(fold, ttl, start, before), labels)
    decreases |labels|
  {
    if labels == [] {
      assert before + labels == before;
    } else {
      var longer := before + [labels[0]];
      assert longer[..|longer| - 1] == before;
      assert before + labels == longer + labels[1..];
      StepsAreExec(fold, ttl, start, longer, labels[1..]);
    }
  }

  /** What the five steps of a read come to. */
  ghost predicate ReadEffect(fold: char -> string, ttl: Time, s: State, s': State, userId: UserId, read: Read,
                             queries: nat, stores: nat, ok: bool)
  {
    var reply := Serve(fold, s.table, userId, read);
    var stored := s.now + queries + stores;
    && Idle(s') && s'.table == s.table && s'.now == stored
    && s'.entries == if Hit(s, userId, read) || reply.NotFound? || !ok then s.entries
                     else s.entries[(userId, read) := CacheEntry(reply, s.now, stored, stored + ttl, |s.past| + 2)]
  }

  lemma TwoSteps(fold: char -> string, ttl: Time, s: State, labels: seq<Label>)
    requires |labels| >= 2
    ensures Steps(fold, ttl, s, labels)
            == Steps(fold, ttl, Next(fold, ttl, Next(fold, ttl, s, labels[0]), labels[1]), labels[2..])
  {
    assert labels[1..][0] == labels[1] && labels[1..][1..] == labels[2..];
  }

  lemma OneStep(fold: char -> string, ttl: Time, s: State, labels: seq<Label>)
    requires |labels| == 1
    ensures Steps(fold, ttl, s, labels) == Next(fold, ttl, s, labels[0])
  {
  }

  lemma ReadRuns(fold: char -> string, ttl: Time, s: State, userId: UserId, read: Read, queries: nat, stores: nat,
                 ok: bool)
    requires Idle(s)
    ensures ReadEffect(fold, ttl, s, Steps(fold, ttl, s, ReadSteps(userId, read, queries, stores, ok)), userId, read,
                       queries, stores, ok)
  {
    var labels := ReadSteps(userId, read, queries, stores, ok);
    var s1 := Next(fold, ttl, s, StartRead(0, userId, read));
    var s2 := Next(fold, ttl, s1, Tick(queries));
    var s3 := Next(fold, ttl, s2, QueryTable(0));
    var s4 := Next(fold, ttl, s3, Tick(stores));
    TwoSteps(fold, ttl, s, labels);
    TwoSteps(fold, ttl, s2, labels[2..]);
    assert labels[2..][2..] == [StoreReply(0, ok)];
    OneStep(fold, ttl, s4, [StoreReply(0, ok)]);
    if !Hit(s, userId, read) {
      MissFills(fold, ttl, s, userId, read, queries, stores, ok);
    }
  }

  lemma MissFills(fold: char -> string, ttl: Time, s: State, userId: UserId, read: Read, queries: nat, stores: nat,
                  ok: bool)
    requires Idle(s) && !Hit(s, userId, read)
    ensures var s2 := Next(fold, ttl, Next(fold, ttl, s, StartRead(0, userId, read)), Tick(queries));
            var s3 := Next(fold, ttl, s2, QueryTable(0));
            var s4 := Next(fold, ttl, s3, Tick(stores));
            ReadEffect(fold, ttl, s, Next(fold, ttl, s4, StoreReply(0, ok)), userId, read, queries, stores, ok)
  {
    var s1 := Next(fold, ttl, s, StartRead(0, userId, read));
    var s3 := Next(fold, ttl, Next(fold, ttl, s1, Tick(queries)), QueryTable(0));
    assert s1.fills == map[0 := Fill(userId, read, s.now, None, 0)];
    assert s3.fills - {0} == map[];
  }

  ghost predicate WriteEffect(s: State, s': State, call: Call, clears: nat, ok: bool) {
    var effect := Apply(s.table, call);
    && !call.request.ArchiveJob? && Idle(s') && s'.table == effect.table && s'.now == s.now + clears
    && s'.entries == if effect.answer.Refused? || !ok then s.entries else WithoutUser(s.entries, call.request.userId)
  }

  lemma WriteRuns(fold: char -> string, ttl: Time, s: State, call: Call, clears: nat, ok: bool)
    requires Idle(s) && !call.request.ArchiveJob?
    ensures WriteEffect(s, Steps(fold, ttl, s, WriteSteps(call, clears, ok)), call, clears, ok)
  {
    var labels := WriteSteps(call, clears, ok);
    var s1 := Next(fold, ttl, s, Write(0, call));
    TwoSteps(fold, ttl, s, labels);
    assert labels[2..] == [ClearUser(0, ok)];
    OneStep(fold, ttl, Next(fold, ttl, s1, Tick(clears)), [ClearUser(0, ok)]);
    if Apply(s.table, call).answer.Refused? {
      RefusalChangesNothing(s.table, call);
    } else {
      assert s1.clears == map[0 := call.request.userId];
      assert s1.clears - {0} == map[];
    }
  }

  lemma RefusalChangesNothing(table: Table, call: Call)
    ensures Apply(table, call).answer.Refused? ==> Apply(table, call).table == table
  {
  }

  /** Handlers that run one after another, with clears that succeed, keep every entry up to date. */
  lemma ReadKeepsCoherence(fold: char -> string, ttl: Time, s: State, s': State, userId: UserId, read: Read,
                           queries: nat, stores: nat, ok: bool)
    requires Idle(s) && AllCoherent(fold, s) && ReadEffect(fold, ttl, s, s', userId, read, queries, stores, ok)
    ensures AllCoherent(fold, s')
  {
    forall u ensures Coherent(fold, s', u) { assert Coherent(fold, s, u); }
  }

  lemma WriteKeepsCoherence(fold: char -> string, s: State, s': State, call: Call, clears: nat)
    requires Idle(s) && AllCoherent(fold, s) && !call.request.ArchiveJob? && WriteEffect(s, s', call, clears, true)
    ensures AllCoherent(fold, s')
  {
    forall u ensures Coherent(fold, s', u) {
      assert Coherent(fold, s, u);
      if u != call.request.userId {
        OthersKeepOwnRows(s.table, call, u);
        forall read ensures Serve(fold, s'.table, u, read) == Serve(fold, s.table, u, read) {
          OwnRowsDecide(fold, s.table, s'.table, u, read);
        }
      }
    }
  }

  /** What a read handler may rely on, at a state of the run. */
  lemma ReadHandled(fold: char -> string, ttl: Time, start: State, labels: seq<Label>, userId: UserId, read: Read,
                    queries: nat, stores: nat, ok: bool)
    requires Idle(Exec(fold, ttl, start, labels)) && start == Initial(start.table, start.now)
    ensures var s := Exec(fold, ttl, start, labels);
            var s' := Exec(fold, ttl, start, labels + ReadSteps(userId, read, queries, stores, ok));
            && ReadEffect(fold, ttl, s, s', userId, read, queries, stores, ok)
            && (Hit(s, userId, read) ==> RightNotLongAgo(fold, ttl, s, userId, read))
            && (AllCoherent(fold, s) ==>
                && AllCoherent(fold, s')
                && (Hit(s, userId, read) && KeyedById(s.table) ==>
                    RightAnswer(fold, s.table, userId, read, s.entries[(userId, read)].reply)))
  {
    var s := Exec(fold, ttl, start, labels);
    var s' := Exec(fold, ttl, start, labels + ReadSteps(userId, read, queries, stores, ok));
    StepsAreExec(fold, ttl, start, labels, ReadSteps(userId, read, queries, stores, ok));
    ReadRuns(fold, ttl, s, userId, read, queries, stores, ok);
    if Hit(s, userId, read) { BoundedStaleness(fold, ttl, start.table, start.now, labels, userId, read); }
    if AllCoherent(fold, s) {
      assert Coherent(fold, s, userId);
      if Hit(s, userId, read) && KeyedById(s.table) {
        ServeIsRight(fold, s.table, userId, read, s.entries[(userId, read)].reply);
      }
      ReadKeepsCoherence(fold, ttl, s, s', userId, read, queries, stores, ok);
    }
  }

  lemma WriteHandled(fold: char -> string, ttl: Time, start: State, labels: seq<Label>, call: Call, clears: nat,
                     ok: bool)
    requires Idle(Exec(fold, ttl, start, labels)) && !call.request.ArchiveJob?
    ensures var s := Exec(fold, ttl, start, labels);
            var s' := Exec(fold, ttl, start, labels + WriteSteps(call, clears, ok));
            && WriteEffect(s, s', call, clears, ok)
            && (ok && AllCoherent(fold, s) ==> AllCoherent(fold, s'))
            && (KeyedById(s.table) ==> KeyedById(s'.table))
  {
    var s := Exec(fold, ttl, start, labels);
    var s' := Exec(fold, ttl, start, labels + WriteSteps(call, clears, ok));
    StepsAreExec(fold, ttl, start, labels, WriteSteps(call, clears, ok));
    WriteRuns(fold, ttl, s, call, clears, ok);
    if ok && AllCoherent(fold, s) { WriteKeepsCoherence(fold, s, s', call, clears); }
    forall id | id in s'.table ensures KeyedById(s.table) ==> s'.table[id].id == id { CallStep(s.table, call, id); }
  }

  class Handlers {
    const service: TodoService
    const cache: ReadCache
    const ttl: Time
    ghost const fold: char -> string
    ghost const start: State
    ghost var labels: seq<Label>

    /** The state of module `Cache` that the handlers have reached. */
    ghost function Model(): State
      reads this
    {
      Exec(fold, ttl, start, labels)
    }

    ghost predicate Valid()
      reads this, service, cache
    {
      && start == Initial(start.table, start.now)
      && Model().table == service.table && Mirrors(cache.entries, Model().entries) && Idle(Model())
      && KeyedById(service.table)
    }

    constructor (service: TodoService, ttl: Time, ghost fold: char -> string, ghost now: Time)
      requires KeyedById(service.table)
      ensures Valid() && this.service == service && this.ttl == ttl && this.fold == fold && fresh(cache)
      ensures Model() == Initial(service.table, now) && AllCoherent(fold, Model())
    {
      this.service, this.ttl, this.fold := service, ttl, fold;
      cache := new ReadCache();
      start := Initial(service.table, now);
      labels := [];
    }

    /** `TodoService.list` and `TodoService.get`. The database's part is `ordered`: the rows that match the conditions
        of a list query, in the order asked for. */
    method AskService(userId: UserId, read: Read, ordered: seq<Todo>) returns (reply: Reply)
      requires KeyedById(service.table)
      requires read.ListRead? ==>
                 OrderedResult(read.query, Selected(fold, read.query, service.table, userId), ordered)
      ensures reply == Cache.Serve(fold, service.table, userId, read)
      ensures RightAnswer(fold, service.table, userId, read, reply)
    {
      match read {
        case ListRead(q, limit, offset) =>
          reply := ListReply(ListAnswer(Page(ordered, limit, offset), |ordered|));
          ResultIsDetermined(q, Selected(fold, q, service.table, userId), ordered);
          DistinctCounts(ordered);
        case DetailRead(id) =>
          if id in service.table && service.table[id].userId == userId {
            reply := DetailReply(service.table[id]);
          } else {
            reply := NotFound;
          }
      }
      ServeIsRight(fold, service.table, userId, read, reply);
    }

    /** `list_todos` and `get_todo` behind the decorator. A hit was right less than the TTL plus the duration of its
        filling read ago, and while every entry is up to date each answer is the service's own. */
    method HandleRead(userId: UserId, read: Read, now: Time, queries: nat, stores: nat, ordered: seq<Todo>, ok: bool)
      returns (reply: Reply)
      requires Valid() && now == Model().now
      requires read.ListRead? ==>
                 OrderedResult(read.query, Selected(fold, read.query, service.table, userId), ordered)
      modifies this, cache
      ensures Valid() && service.table == old(service.table)
      ensures labels == old(labels) + ReadSteps(userId, read, queries, stores, ok)
      ensures if Hit(old(Model()), userId, read)
              then reply == old(Model()).entries[(userId, read)].reply
                   && RightNotLongAgo(fold, ttl, old(Model()), userId, read)
              else RightAnswer(fold, service.table, userId, read, reply)
      ensures old(AllCoherent(fold, Model())) ==>
                RightAnswer(fold, service.table, userId, read, reply) && AllCoherent(fold, Model())
    {
      ReadHandled(fold, ttl, start, labels, userId, read, queries, stores, ok);
      labels := labels + ReadSteps(userId, read, queries, stores, ok);
      var cached := cache.Get(userId, read, now);
      if cached.Some? { return cached.value; }
      reply := AskService(userId, read, ordered);
      if !reply.NotFound? { cache.Put(userId, read, reply, now + queries + stores + ttl, ok); }
    }

    /** `create_todo`, `update_todo` and `remove_todo`: the service commits, then the user's entries are cleared; a
        refused change clears nothing, and a failing clear does not change the answer. */
    method HandleWrite(call: Call, now: Time, clears: nat, ok: bool) returns (answer: Answer)
      requires Valid() && now == Model().now && !call.request.ArchiveJob?
      modifies this, service, cache
      ensures Valid() && Effect(service.table, answer) == Apply(old(service.table), call)
      ensures labels == old(labels) + WriteSteps(call, clears, ok)
      ensures ok && old(AllCoherent(fold, Model())) ==> AllCoherent(fold, Model())
    {
      WriteHandled(fold, ttl, start, labels, call, clears, ok);
      labels := labels + WriteSteps(call, clears, ok);
      match call.request {
        case CreateRequest(id, userId, title, description, priority, dueAt) =>
          answer := service.CreateTodo(id, userId, title, description, priority, dueAt, call.now, call.fails);
        case UpdateRequest(id, userId, changes, status) =>
          answer := service.UpdateTodo(userId, id, changes, status, call.now, call.fails);
        case DeleteRequest(id, userId) => answer := service.DeleteTodo(userId, id, call.fails);
      }
      if !answer.Refused? { cache.Invalidate(call.request.userId, ok); }
    }

    /** The archive job changes rows and clears nothing. */
    method HandleArchive(afterDays: nat, now: Time, fails: bool) returns (answer: Answer)
      requires Valid() && now == Model().now
      modifies this, service
      ensures Valid() && Effect(service.table, answer) == AutoArchive(old(service.table), afterDays, now, fails)
      ensures labels == old(labels) + [Archive(afterDays, fails)]
    {
      ArchiveHandled(fold, ttl, start, labels, afterDays, fails);
      labels := labels + [Archive(afterDays, fails)];
      answer := service.ArchiveOld(afterDays, now, fails);
    }
  }

  lemma ArchiveHandled(fold: char -> string, ttl: Time, start: State, labels: seq<Label>, afterDays: nat, fails: bool)
    requires Idle(Exec(fold, ttl, start, labels)) && KeyedById(Exec(fold, ttl, start, labels).table)
    ensures var s := Exec(fold, ttl, start, labels);
            var s' := Exec(fold, ttl, start, labels + [Archive(afterDays, fails)]);
            && Idle(s') && s'.entries == s.entries && KeyedById(s'.table)
            && s'.table == AutoArchive(s.table, afterDays, s.now, fails).table
  {
    assert (labels + [Archive(afterDays, fails)])[..|labels|] == labels;
  }
}
