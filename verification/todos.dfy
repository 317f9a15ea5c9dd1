/** The Todo state machine of src/todo_api/models/todo.py and src/todo_api/services/todo.py: records changed in place
    and committed or dropped as a whole, and what every sequence of requests and archive jobs keeps. */
module Todos {
  import opened Base

  datatype Status = Open | InProgress | Completed | Cancelled

  datatype Priority = Low | Medium | High | Urgent

  datatype Todo = Todo(
    id: int,
    userId: UserId,
    title: string,
    description: Option<string>,
    status: Status,
    priority: Priority,
    dueAt: Option<Time>,
    completedAt: Option<Time>,
    isArchived: bool,
    createdAt: Time,
    updatedAt: Time)
  {
    /** The `completion_state` constraint. */
    predicate CompletionState() { status == Completed <==> completedAt.Some? }
  }

  type Table = map<int, Todo>

  /** One attribute that the update payload sets; null is a value for description and due date only. */
  datatype FieldChange =
    | SetTitle(title: string)
    | SetDescription(description: Option<string>)
    | SetPriority(priority: Priority)
    | SetDueAt(dueAt: Option<Time>)
    | SetArchived(isArchived: bool)

  datatype TodoError = TodoNotFound | StateConflict | TodoUnavailable

  datatype Answer = Saved(todo: Todo) | Deleted | Archived(count: nat) | Refused(error: TodoError)

  datatype Effect = Effect(table: Table, answer: Answer)

  // ----- what the operations do, on rows -----

  function WithChange(t: Todo, c: FieldChange): Todo {
    match c
    case SetTitle(title) => t.(title := title)
    case SetDescription(description) => t.(description := description)
    case SetPriority(priority) => t.(priority := priority)
    case SetDueAt(dueAt) => t.(dueAt := dueAt)
    case SetArchived(isArchived) => t.(isArchived := isArchived)
  }

  function WithChanges(t: Todo, changes: seq<FieldChange>): Todo {
    if changes == [] then t
    else WithChange(WithChanges(t, changes[..|changes| - 1]), changes[|changes| - 1])
  }

  /** None is a refused transition. */
  function Transition(t: Todo, target: Status, now: Time): Option<Todo> {
    if target == t.status then Some(t)
    else if t.status == Cancelled && target != Open then None
    else if t.status == Completed && target == Cancelled then None
    else Some(t.(status := target, completedAt := if target == Completed then Some(now) else None))
  }

  /** A changed row gets a new `updated_at` when it is flushed; an unchanged one is not written. */
  function Touched(before: Todo, after: Todo, now: Time): Todo {
    if after == before then before else after.(updatedAt := now)
  }

  predicate BlankTitle(title: string) { forall c <- title :: c == ' ' }

  predicate Owned(table: Table, userId: UserId, id: int) { id in table && table[id].userId == userId }

  function Create(table: Table, id: int, userId: UserId, title: string, description: Option<string>, priority: Priority,
                  dueAt: Option<Time>, now: Time, fails: bool): Effect
  {
    var todo := Todo(id, userId, title, description, Open, priority, dueAt, None, false, now, now);
    if fails || id in table || BlankTitle(title) then Effect(table, Refused(TodoUnavailable))
    else Effect(table[id := todo], Saved(todo))
  }

  function Update(table: Table, userId: UserId, id: int, changes: seq<FieldChange>, status: Option<Status>, now: Time,
                  fails: bool): Effect
  {
    if !Owned(table, userId, id) then Effect(table, Refused(TodoNotFound))
    else
      var changed := WithChanges(table[id], changes);
      var moved := if status.Some? then Transition(changed, status.value, now) else Some(changed);
      if moved.None? then Effect(table, Refused(StateConflict))
      else if fails || BlankTitle(moved.value.title) then Effect(table, Refused(TodoUnavailable))
      else
        var saved := Touched(table[id], moved.value, now);
        Effect(table[id := saved], Saved(saved))
  }

  function Delete(table: Table, userId: UserId, id: int, fails: bool): Effect {
    if !Owned(table, userId, id) then Effect(table, Refused(TodoNotFound))
    else if fails then Effect(table, Refused(TodoUnavailable))
    else Effect(table - {id}, Deleted)
  }

  predicate Archivable(t: Todo, completedBefore: Time) {
    t.status == Completed && !t.isArchived && t.completedAt.Some? && t.completedAt.value <= completedBefore
  }

  function ArchiveRow(t: Todo, completedBefore: Time, now: Time): Todo {
    if Archivable(t, completedBefore) then t.(isArchived := true, updatedAt := now) else t
  }

  function ArchiveRows(table: Table, completedBefore: Time, now: Time): Table {
    map id | id in table :: ArchiveRow(table[id], completedBefore, now)
  }

  /** The daily job; zero days switch it off. */
  function AutoArchive(table: Table, afterDays: nat, now: Time, fails: bool): Effect {
    if afterDays == 0 then Effect(table, Archived(0))
    else if fails then Effect(table, Refused(TodoUnavailable))
    else
      var cutOff := now - afterDays * 86_400 * SECOND;
      Effect(ArchiveRows(table, cutOff, now), Archived(|set id | id in table && Archivable(table[id], cutOff)|))
  }

  /** Completed, not yet archived, and that for so many whole days. */
  predicate DoneFor(t: Todo, days: int, now: Time) {
    && t.status == Completed && !t.isArchived
    && t.completedAt.Some? && t.completedAt.value + days * 24 * 60 * 60 * 1_000_000 <= now
  }

  // ----- the operations, as they run -----

  /** A loaded `Todo`. */
  class TodoRecord {
    const id: int
    const userId: UserId
    const createdAt: Time
    const updatedAt: Time
    var title: string
    var description: Option<string>
    var status: Status
    var priority: Priority
    var dueAt: Option<Time>
    var completedAt: Option<Time>
    var isArchived: bool

    constructor (row: Todo)
      ensures Row() == row
    {
      id, userId, createdAt, updatedAt := row.id, row.userId, row.createdAt, row.updatedAt;
      title, description, status, priority := row.title, row.description, row.status, row.priority;
      dueAt, completedAt, isArchived := row.dueAt, row.completedAt, row.isArchived;
    }

    function Row(): Todo
      reads this
    {
      Todo(id, userId, title, description, status, priority, dueAt, completedAt, isArchived, createdAt, updatedAt)
    }

    method Set(c: FieldChange)
      modifies this
      ensures Row() == WithChange(old(Row()), c)
    {
      match c {
        case SetTitle(t) => title := t;
        case SetDescription(d) => description := d;
        case SetPriority(p) => priority := p;
        case SetDueAt(d) => dueAt := d;
        case SetArchived(a) => isArchived := a;
      }
    }

    /** Raises (answers false) on a cancelled todo. */
    method Complete(at: Time) returns (ok: bool)
      modifies this
      ensures ok == (old(status) != Cancelled)
      ensures Row() == if ok then old(Row()).(status := Completed, completedAt := Some(at)) else old(Row())
    {
      if status == Cancelled { return false; }
      status := Completed;
      completedAt := Some(at);
      ok := true;
    }

    method Reopen()
      modifies this
      ensures Row() == old(Row()).(status := Open, completedAt := None)
    {
      status := Open;
      completedAt := None;
    }

    method Cancel()
      modifies this
      ensures Row() == old(Row()).(status := Cancelled, completedAt := None)
    {
      status := Cancelled;
      completedAt := None;
    }

    method MoveTo(target: Status, now: Time) returns (ok: bool)
      modifies this
      ensures ok == Transition(old(Row()), target, now).Some?
      ensures Row() == if ok then Transition(old(Row()), target, now).value else old(Row())
    {
      if target == status { return true; }
      if status == Cancelled && target != Open { return false; }
      if status == Completed && target == Cancelled { return false; }
      ok := true;
      match target {
        case Open => Reopen();
        case InProgress =>
          status := InProgress;
          completedAt := None;
        case Completed => ok := Complete(now);
        case Cancelled => Cancel();
      }
    }
  }

  class TodoService {
    var table: Table

    constructor ()
      ensures table == map[]
    {
      table := map[];
    }

    /** The record is changed attribute by attribute before its transition is tried; only a commit writes it. */
    method UpdateTodo(userId: UserId, id: int, changes: seq<FieldChange>, requested: Option<Status>, now: Time,
                      fails: bool)
      returns (answer: Answer)
      modifies this
      ensures Effect(table, answer) == Update(old(table), userId, id, changes, requested, now, fails)
    {
      if id !in table || table[id].userId != userId { return Refused(TodoNotFound); }
      var loaded := table[id];
      var record := new TodoRecord(loaded);
      for i := 0 to |changes|
        invariant fresh(record) && table == old(table)
        invariant record.Row() == WithChanges(loaded, changes[..i])
      {
        record.Set(changes[i]);
        assert changes[..i + 1][..i] == changes[..i];
      }
      assert changes[..|changes|] == changes;
      if requested.Some? {
        var ok := record.MoveTo(requested.value, now);
        if !ok { return Refused(StateConflict); }
      }
      var row := record.Row();
      if fails || BlankTitle(row.title) { return Refused(TodoUnavailable); }
      if row != loaded { row := row.(updatedAt := now); }
      table := table[id := row];
      answer := Saved(row);
    }

    method CreateTodo(id: int, userId: UserId, title: string, description: Option<string>, priority: Priority,
                      dueAt: Option<Time>, now: Time, fails: bool) returns (answer: Answer)
      modifies this
      ensures Effect(table, answer) == Create(old(table), id, userId, title, description, priority, dueAt, now, fails)
    {
      if fails || id in table || BlankTitle(title) { return Refused(TodoUnavailable); }
      var row := Todo(id, userId, title, description, Open, priority, dueAt, None, false, now, now);
      table := table[id := row];
      answer := Saved(row);
    }

    method DeleteTodo(userId: UserId, id: int, fails: bool) returns (answer: Answer)
      modifies this
      ensures Effect(table, answer) == Delete(old(table), userId, id, fails)
    {
      if id !in table || table[id].userId != userId { return Refused(TodoNotFound); }
      if fails { return Refused(TodoUnavailable); }
      table := map k | k in table && k != id :: table[k];
      answer := Deleted;
    }

    method ArchiveOld(afterDays: nat, now: Time, fails: bool) returns (answer: Answer)
      modifies this
      ensures Effect(table, answer) == AutoArchive(old(table), afterDays, now, fails)
      ensures table.Keys == old(table).Keys && forall id <- table ::
                table[id] == if afterDays > 0 && !fails && DoneFor(old(table)[id], afterDays, now)
                             then old(table)[id].(isArchived := true, updatedAt := now) else old(table)[id]
    {
      if afterDays == 0 { return Archived(0); }
      if fails { return Refused(TodoUnavailable); }
      var cutOff := now - afterDays * 86_400 * SECOND;
      var matching := set id | id in table && Archivable(table[id], cutOff);
      table := map id | id in table ::
        if id in matching then table[id].(isArchived := true, updatedAt := now) else table[id];
      answer := Archived(|matching|);
      ghost var archived := ArchiveRows(old(table), cutOff, now);
      forall id | id in old(table) ensures table[id] == archived[id] {
        assert id in matching <==> Archivable(old(table)[id], cutOff);
      }
      assert table == archived;
      forall id | id in old(table)
        ensures Archivable(old(table)[id], cutOff) <==> DoneFor(old(table)[id], afterDays, now)
      {
      }
    }
  }

  // ----- runs -----

  datatype Request =
    | CreateRequest(id: int, userId: UserId, title: string, description: Option<string>, priority: Priority,
                    dueAt: Option<Time>)
    | UpdateRequest(id: int, userId: UserId, changes: seq<FieldChange>, status: Option<Status>)
    | DeleteRequest(id: int, userId: UserId)
    | ArchiveJob(afterDays: nat)

  datatype Call = Call(request: Request, now: Time, fails: bool)

  function Apply(table: Table, c: Call): Effect {
    match c.request
    case CreateRequest(id, userId, title, description, priority, dueAt) =>
      Create(table, id, userId, title, description, priority, dueAt, c.now, c.fails)
    case UpdateRequest(id, userId, changes, status) => Update(table, userId, id, changes, status, c.now, c.fails)
    case DeleteRequest(id, userId) => Delete(table, userId, id, c.fails)
    case ArchiveJob(afterDays) => AutoArchive(table, afterDays, c.now, c.fails)
  }

  function RunCalls(calls: seq<Call>): Table {
    if calls == [] then map[] else Apply(RunCalls(calls[..|calls| - 1]), calls[|calls| - 1]).table
  }

  // ----- what holds -----

  lemma {:induction false} ChangesKeepCompletion(t: Todo, changes: seq<FieldChange>)
    ensures var t' := WithChanges(t, changes);
            t'.status == t.status && t'.completedAt == t.completedAt && t'.id == t.id && t'.userId == t.userId
  {
    if changes != [] { ChangesKeepCompletion(t, changes[..|changes| - 1]); }
  }

  datatype Attribute = TitleAttribute | DescriptionAttribute | PriorityAttribute | DueAttribute | ArchivedAttribute

  function Target(c: FieldChange): Attribute {
    match c
    case SetTitle(_) => TitleAttribute
    case SetDescription(_) => DescriptionAttribute
    case SetPriority(_) => PriorityAttribute
    case SetDueAt(_) => DueAttribute
    case SetArchived(_) => ArchivedAttribute
  }

  /** The change that would set an attribute to what it is. */
  function Present(t: Todo, a: Attribute): FieldChange {
    match a
    case TitleAttribute => SetTitle(t.title)
    case DescriptionAttribute => SetDescription(t.description)
    case PriorityAttribute => SetPriority(t.priority)
    case DueAttribute => SetDueAt(t.dueAt)
    case ArchivedAttribute => SetArchived(t.isArchived)
  }

  /** A partial update: each attribute ends as its last change in the payload says, or as it was if there is none. */
  lemma {:induction false} LastChangeWins(t: Todo, changes: seq<FieldChange>, a: Attribute)
    ensures var now := Present(WithChanges(t, changes), a);
            || (exists i :: 0 <= i < |changes| && changes[i] == now && Target(changes[i]) == a
                            && forall j :: i < j < |changes| ==> Target(changes[j]) != a)
            || (now == Present(t, a) && forall c <- changes :: Target(c) != a)
  {
    if changes != [] {
      var before, last := changes[..|changes| - 1], changes[|changes| - 1];
      LastChangeWins(t, before, a);
      assert changes == before + [last];
      if Target(last) == a {
        assert changes[|changes| - 1] == Present(WithChanges(t, changes), a);
      }
    }
  }

  /** One call moves a row only along a legal transition, and a completion time only with the status. */
  ghost predicate RowStep(before: Todo, after: Todo, now: Time) {
    && after.id == before.id && after.userId == before.userId && after.createdAt == before.createdAt
    && (after.status == before.status ==> after.completedAt == before.completedAt)
    && (after.status != before.status ==>
        && !(before.status == Cancelled && after.status != Open)
        && !(before.status == Completed && after.status == Cancelled)
        && after.completedAt == if after.status == Completed then Some(now) else None)
  }

  /** The row that a request asks to be created. */
  function AsRequested(c: Call): Todo
    requires c.request.CreateRequest?
  {
    Todo(c.request.id, c.request.userId, c.request.title, c.request.description, Open, c.request.priority,
         c.request.dueAt, None, false, c.now, c.now)
  }

  lemma CallStep(table: Table, c: Call, id: int)
    ensures var table' := Apply(table, c).table;
            && (id in table && id in table' ==> RowStep(table[id], table'[id], c.now))
            && (id !in table && id in table' ==>
                && c.request.CreateRequest? && c.request.id == id && table'[id] == AsRequested(c))
  {
    if c.request.UpdateRequest? && Owned(table, c.request.userId, c.request.id) {
      ChangesKeepCompletion(table[c.request.id], c.request.changes);
      ChangesKeepCreation(table[c.request.id], c.request.changes);
    }
  }

  lemma {:induction false} ChangesKeepCreation(t: Todo, changes: seq<FieldChange>)
    ensures WithChanges(t, changes).createdAt == t.createdAt && WithChanges(t, changes).updatedAt == t.updatedAt
  {
    if changes != [] { ChangesKeepCreation(t, changes[..|changes| - 1]); }
  }

  /** After any sequence of creates, partial updates, refused transitions, deletes and archive jobs, a todo is completed
      exactly if it has a completion time: the database constraint never has to refuse a row. */
  lemma {:induction false} CompletedIffTimed(calls: seq<Call>, id: int)
    ensures id in RunCalls(calls) ==> RunCalls(calls)[id].CompletionState()
  {
    if calls != [] {
      CompletedIffTimed(calls[..|calls| - 1], id);
      CallStep(RunCalls(calls[..|calls| - 1]), calls[|calls| - 1], id);
    }
  }

  /** Rows stay under their own id. */
  lemma {:induction false} RowsKeepTheirId(calls: seq<Call>, id: int)
    ensures id in RunCalls(calls) ==> RunCalls(calls)[id].id == id
  {
    if calls != [] {
      RowsKeepTheirId(calls[..|calls| - 1], id);
      CallStep(RunCalls(calls[..|calls| - 1]), calls[|calls| - 1], id);
    }
  }

  /** The k-th call created the row that now has the id, and nothing removed it since. */
  ghost predicate CreatedBy(calls: seq<Call>, k: nat, id: int) {
    && k < |calls| && calls[k].request.CreateRequest? && calls[k].request.id == id
    && id !in RunCalls(calls[..k]) && id in RunCalls(calls)
    && RunCalls(calls)[id].userId == calls[k].request.userId && RunCalls(calls)[id].createdAt == calls[k].now
    && forall m :: k < m <= |calls| ==> id in RunCalls(calls[..m])
  }

  /** Every row goes back to one create of its owner, at the time that the row shows. */
  lemma {:induction false} RowsComeFromCreates(calls: seq<Call>, id: int)
    requires id in RunCalls(calls)
    ensures exists k: nat :: CreatedBy(calls, k, id)
  {
    var before, last := calls[..|calls| - 1], calls[|calls| - 1];
    CallStep(RunCalls(before), last, id);
    assert calls[..|calls|] == calls;
    if id in RunCalls(before) {
      RowsComeFromCreates(before, id);
      var k: nat :| CreatedBy(before, k, id);
      assert forall m :: 0 <= m <= |before| ==> before[..m] == calls[..m];
      assert CreatedBy(calls, k, id);
    } else {
      assert CreatedBy(calls, |before|, id);
    }
  }

  /** A delete undoes a create, and only its owner's does. */
  lemma DeleteUndoesCreate(table: Table, c: Call, userId: UserId)
    requires c.request.CreateRequest? && Apply(table, c).answer.Saved?
    ensures var deleted := Delete(Apply(table, c).table, userId, c.request.id, false);
            deleted == if userId == c.request.userId then Effect(table, Deleted)
                       else Effect(Apply(table, c).table, Refused(TodoNotFound))
  {
    assert table[c.request.id := AsRequested(c)] - {c.request.id} == table;
  }

  ghost predicate StaysCompleted(calls: seq<Call>, n: nat, id: int) {
    forall k :: n <= k <= |calls| ==> id in RunCalls(calls[..k]) && RunCalls(calls[..k])[id].status == Completed
  }

  /** While a todo stays completed its completion time is fixed, whatever else is updated or archived. */
  lemma {:induction false} CompletionTimeIsFixed(calls: seq<Call>, n: nat, id: int)
    requires n <= |calls| && StaysCompleted(calls, n, id)
    ensures id in RunCalls(calls) && id in RunCalls(calls[..n])
    ensures RunCalls(calls)[id].completedAt == RunCalls(calls[..n])[id].completedAt
    decreases |calls|
  {
    assert calls[..|calls|] == calls;
    if n < |calls| {
      var before := calls[..|calls| - 1];
      forall k | n <= k <= |before|
        ensures id in RunCalls(before[..k]) && RunCalls(before[..k])[id].status == Completed
      {
        assert before[..k] == calls[..k];
      }
      CompletionTimeIsFixed(before, n, id);
      assert before[..n] == calls[..n];
      CallStep(RunCalls(before), calls[|calls| - 1], id);
    }
  }

  /** An update is refused for its transition exactly from the two forbidden starts, and then the row keeps every field,
      also those that were set before the transition was tried. */
  lemma RefusedUpdateLeavesRow(table: Table, userId: UserId, id: int, changes: seq<FieldChange>, target: Status,
                               now: Time, fails: bool)
    requires Owned(table, userId, id)
    ensures var effect := Update(table, userId, id, changes, Some(target), now, fails);
            && (effect.answer == Refused(StateConflict) <==>
                || (table[id].status == Cancelled && target in {InProgress, Completed})
                || (table[id].status == Completed && target == Cancelled))
            && (effect.answer.Refused? ==> effect.table == table)
            && (effect.answer.Saved? ==> effect.table[id].status == target)
  {
    ChangesKeepCompletion(table[id], changes);
  }

  /** A request of one user never touches another user's row, and an update moves no row to another owner. */
  lemma OthersUntouched(table: Table, c: Call, id: int)
    requires !c.request.ArchiveJob? && id in table && table[id].userId != c.request.userId
    ensures var table' := Apply(table, c).table; id in table' && table'[id] == table[id]
  {
  }

  /** A saved update shows in the answer and in the table, with a new time stamp exactly if anything changed. */
  lemma SavedUpdateIsVisible(table: Table, userId: UserId, id: int, changes: seq<FieldChange>, status: Option<Status>,
                             now: Time, a: Attribute)
    requires Update(table, userId, id, changes, status, now, false).answer.Saved?
    ensures var effect := Update(table, userId, id, changes, status, now, false);
            && Owned(table, userId, id) && effect.table == table[id := effect.answer.todo]
            && Present(effect.answer.todo, a) == Present(WithChanges(table[id], changes), a)
            && (if effect.answer.todo.(updatedAt := table[id].updatedAt) == table[id]
                then effect.answer.todo == table[id]
                else effect.answer.todo.updatedAt == now)
  {
    ChangesKeepCreation(table[id], changes);
    if status.Some? { TransitionKeepsAttributes(WithChanges(table[id], changes), status.value, now, a); }
  }

  lemma TransitionKeepsAttributes(t: Todo, target: Status, now: Time, a: Attribute)
    ensures var moved := Transition(t, target, now);
            moved.Some? ==> Present(moved.value, a) == Present(t, a) && moved.value.updatedAt == t.updatedAt
  {
  }

  /** The job archives, at this time, exactly the todos that have been completed for so many days, and no row changes
      otherwise; zero days switch it off, and it is refused only if it fails. */
  lemma ArchivedIff(table: Table, afterDays: nat, now: Time, fails: bool)
    ensures var effect := AutoArchive(table, afterDays, now, fails);
            && (if afterDays > 0 && fails then effect == Effect(table, Refused(TodoUnavailable))
                else effect.answer.Archived?)
            && effect.table.Keys == table.Keys
            && forall id <- table ::
                 effect.table[id] == if afterDays > 0 && !fails && DoneFor(table[id], afterDays, now)
                                     then table[id].(isArchived := true, updatedAt := now) else table[id]
  {
    var effect := AutoArchive(table, afterDays, now, fails);
    if afterDays > 0 && !fails {
      var cutOff := now - afterDays * 86_400 * SECOND;
      forall id | id in table
        ensures effect.table[id] == if DoneFor(table[id], afterDays, now)
                                    then table[id].(isArchived := true, updatedAt := now) else table[id]
      {
        assert effect.table[id] == ArchiveRow(table[id], cutOff, now);
      }
    }
  }

  lemma BlankMeans(title: string)
    ensures BlankTitle(title) <==> !exists i :: 0 <= i < |title| && title[i] != ' '
  {
    if !BlankTitle(title) {
      var x :| x in title && x != ' ';
      var i :| 0 <= i < |title| && title[i] == x;
    }
    forall i | BlankTitle(title) && 0 <= i < |title| ensures title[i] == ' ' { assert title[i] in title; }
  }

  /** A create is saved, as requested, exactly under a new id, with a title that is not all spaces, and without a
      failing statement; the answer is the saved row, and a refused create changes nothing. */
  lemma CreateSavedIff(table: Table, c: Call)
    requires c.request.CreateRequest?
    ensures var effect := Apply(table, c);
            if !c.fails && c.request.id !in table && exists i :: 0 <= i < |c.request.title| && c.request.title[i] != ' '
            then effect == Effect(table[c.request.id := AsRequested(c)], Saved(AsRequested(c)))
            else effect == Effect(table, Refused(TodoUnavailable))
  {
    BlankMeans(c.request.title);
  }

  /** A delete removes exactly its owner's row, finds nothing else, and fails for the database only. */
  lemma DeletedIff(table: Table, c: Call)
    requires c.request.DeleteRequest?
    ensures var effect, id := Apply(table, c), c.request.id;
            if id !in table || table[id].userId != c.request.userId then effect == Effect(table, Refused(TodoNotFound))
            else if c.fails then effect == Effect(table, Refused(TodoUnavailable))
            else effect.answer == Deleted && id !in effect.table
                 && effect.table.Keys + {id} == table.Keys && forall k <- effect.table :: effect.table[k] == table[k]
  {
  }

  /** From one status to another: all but cancelled to in progress or completed, and completed to cancelled. */
  predicate LegalMove(from: Status, to: Status) {
    from == to || to == Open || (from == Open) || (from == InProgress) || (from == Completed && to == InProgress)
  }

  /** Which answer an update gets; a legal one without failures is always saved, with the requested status. */
  lemma UpdateAnswers(table: Table, userId: UserId, id: int, changes: seq<FieldChange>, status: Option<Status>,
                      now: Time, fails: bool)
    ensures var effect := Update(table, userId, id, changes, status, now, fails);
            && (effect.answer == Refused(TodoNotFound) <==> id !in table || table[id].userId != userId)
            && (effect.answer.Refused? ==> effect.table == table)
            && (id in table && table[id].userId == userId ==>
                var legal := status.None? || LegalMove(table[id].status, status.value);
                var titled := exists i :: 0 <= i < |WithChanges(table[id], changes).title|
                                          && WithChanges(table[id], changes).title[i] != ' ';
                && (effect.answer == Refused(StateConflict) <==> !legal)
                && (effect.answer == Refused(TodoUnavailable) <==> legal && (fails || !titled))
                && (effect.answer.Saved? <==> legal && !fails && titled)
                && (effect.answer.Saved? ==>
                    effect.answer.todo.status == if status.Some? then status.value else table[id].status))
  {
    if id in table && table[id].userId == userId {
      ChangesKeepCompletion(table[id], changes);
      BlankMeans(WithChanges(table[id], changes).title);
      if status.Some? { TransitionKeepsAttributes(WithChanges(table[id], changes), status.value, now, TitleAttribute); }
    }
  }

  /** The job reports how many rows it changed. */
  lemma ArchiveCounts(table: Table, afterDays: nat, now: Time)
    ensures var effect := AutoArchive(table, afterDays, now, false);
            && effect.table.Keys == table.Keys
            && effect.answer == Archived(|set id | id in table && effect.table[id] != table[id]|)
  {
    var effect := AutoArchive(table, afterDays, now, false);
    if afterDays > 0 {
      var cutOff := now - afterDays * 86_400 * SECOND;
      forall id | id in table ensures effect.table[id] != table[id] <==> Archivable(table[id], cutOff) {
        assert effect.table[id] == ArchiveRow(table[id], cutOff, now);
      }
      assert (set id | id in table && effect.table[id] != table[id])
             == set id | id in table && Archivable(table[id], cutOff);
    } else {
      assert (set id | id in table && effect.table[id] != table[id]) == {};
    }
  }

  /** Archiving twice with one cut-off equals archiving once, and touches nothing but the flag and the time stamp of old
      completed rows. */
  lemma ArchivingIsIdempotent(table: Table, completedBefore: Time, now: Time, later: Time)
    ensures var once := ArchiveRows(table, completedBefore, now);
            && ArchiveRows(once, completedBefore, later) == once
            && once.Keys == table.Keys
            && forall id <- table ::
                 if Archivable(table[id], completedBefore)
                 then once[id] == table[id].(isArchived := true, updatedAt := now)
                 else once[id] == table[id]
  {
    var once := ArchiveRows(table, completedBefore, now);
    var twice := ArchiveRows(once, completedBefore, later);
    forall id | id in table ensures twice[id] == once[id] {
      assert once[id] == ArchiveRow(table[id], completedBefore, now);
      assert twice[id] == ArchiveRow(once[id], completedBefore, later);
    }
    assert twice.Keys == once.Keys == table.Keys;
    assert twice == once;
  }
}
