/** The Todo list query of src/todo_api/repositories/todo.py: nullable filters in SQL's three-valued logic, a two-key
    ordering with nulls last, and paging by limit and offset. */
module Listing {
  import opened Base
  import opened Search
  import opened Todos

  datatype SortField = CreatedAt | UpdatedAt | DueAt | Title

  datatype Direction = Asc | Desc

  datatype Query = Query(
    search: Option<string>,
    status: Option<Status>,
    priority: Option<Priority>,
    isArchived: bool,
    dueFrom: Option<Time>,
    dueTo: Option<Time>,
    sortBy: SortField,
    direction: Direction)

  // ----- filters -----

  /** A condition on a null is unknown, and WHERE keeps only what is true. */
  datatype Truth = Yes | No | Unknown

  function Known(b: bool): Truth { if b then Yes else No }

  function Or(a: Truth, b: Truth): Truth {
    if a == Yes || b == Yes then Yes else if a == No && b == No then No else Unknown
  }

  predicate Where(conditions: seq<Truth>) { No !in conditions && Unknown !in conditions }

  function AtLeast(value: Option<Time>, bound: Time): Truth {
    if value.None? then Unknown else Known(value.value >= bound)
  }

  function AtMost(value: Option<Time>, bound: Time): Truth {
    if value.None? then Unknown else Known(value.value <= bound)
  }

  function Matches(fold: char -> string, pattern: string, value: Option<string>): Truth {
    if value.None? then Unknown else Known(ILike(fold, pattern, value.value))
  }

  /** The list that `_filters` builds, evaluated on one row. */
  function Filters(fold: char -> string, q: Query, userId: UserId, t: Todo): seq<Truth> {
    [Known(t.userId == userId), Known(t.isArchived == q.isArchived)]
    + (if q.search.Some? && q.search.value != "" then
         var pattern := "%" + EscapeLike(q.search.value) + "%";
         [Or(Matches(fold, pattern, Some(t.title)), Matches(fold, pattern, t.description))]
       else [])
    + (if q.status.Some? then [Known(t.status == q.status.value)] else [])
    + (if q.priority.Some? then [Known(t.priority == q.priority.value)] else [])
    + (if q.dueFrom.Some? then [AtLeast(t.dueAt, q.dueFrom.value)] else [])
    + (if q.dueTo.Some? then [AtMost(t.dueAt, q.dueTo.value)] else [])
  }

  ghost predicate ContainsFolded(fold: char -> string, text: string, part: string) {
    Contains(Fold(fold, text), Fold(fold, part))
  }

  /** What a user asks for: own rows of one archive state whose title or description contains the search text, with the
      given status and priority, due inside the given bounds; a row without due date meets no bound. */
  ghost predicate Wanted(fold: char -> string, q: Query, userId: UserId, t: Todo) {
    && t.userId == userId && t.isArchived == q.isArchived
    && (q.search.Some? && q.search.value != "" ==>
        || ContainsFolded(fold, t.title, q.search.value)
        || (t.description.Some? && ContainsFolded(fold, t.description.value, q.search.value)))
    && (q.status.Some? ==> t.status == q.status.value)
    && (q.priority.Some? ==> t.priority == q.priority.value)
    && (q.dueFrom.Some? ==> t.dueAt.Some? && q.dueFrom.value <= t.dueAt.value)
    && (q.dueTo.Some? ==> t.dueAt.Some? && t.dueAt.value <= q.dueTo.value)
  }

  lemma FiltersMeanWanted(fold: char -> string, q: Query, userId: UserId, t: Todo)
    requires FoldsLetters(fold)
    ensures Where(Filters(fold, q, userId, t)) <==> Wanted(fold, q, userId, t)
  {
    if q.search.Some? && q.search.value != "" {
      SearchFindsSubstrings(fold, q.search.value, t.title);
      if t.description.Some? { SearchFindsSubstrings(fold, q.search.value, t.description.value); }
    }
  }

  /** The rows of the answer, before ordering. */
  function Selected(fold: char -> string, q: Query, table: Table, userId: UserId): set<Todo> {
    set id | id in table && Where(Filters(fold, q, userId, table[id])) :: table[id]
  }

  // ----- ordering -----

  function LexLess(a: string, b: string): bool {
    if b == "" then false
    else if a == "" then true
    else a[0] < b[0] || (a[0] == b[0] && LexLess(a[1..], b[1..]))
  }

  /** The first key: nulls come last in either direction. */
  predicate ColumnBefore(q: Query, a: Todo, b: Todo) {
    match q.sortBy
    case CreatedAt => if q.direction == Asc then a.createdAt < b.createdAt else b.createdAt < a.createdAt
    case UpdatedAt => if q.direction == Asc then a.updatedAt < b.updatedAt else b.updatedAt < a.updatedAt
    case DueAt =>
      a.dueAt.Some? && (b.dueAt.None? || if q.direction == Asc then a.dueAt.value < b.dueAt.value
                                         else b.dueAt.value < a.dueAt.value)
    case Title => if q.direction == Asc then LexLess(a.title, b.title) else LexLess(b.title, a.title)
  }

  /** ORDER BY column, id. */
  predicate Before(q: Query, a: Todo, b: Todo) {
    || ColumnBefore(q, a, b)
    || (!ColumnBefore(q, b, a) && if q.direction == Asc then a.id < b.id else b.id < a.id)
  }

  lemma {:induction false} LexTransitive(a: string, b: string, c: string)
    ensures LexLess(a, b) && LexLess(b, c) ==> LexLess(a, c)
    ensures LexLess(a, c) ==> LexLess(a, b) || LexLess(b, c)
  {
    if a != "" && b != "" && c != "" { LexTransitive(a[1..], b[1..], c[1..]); }
  }

  lemma {:induction false} LexAsymmetric(a: string, b: string)
    ensures !(LexLess(a, b) && LexLess(b, a))
  {
    if a != "" && b != "" { LexAsymmetric(a[1..], b[1..]); }
  }

  /** The two keys together are a strict total order on the rows of a table. */
  lemma BeforeIsStrictTotal(q: Query, a: Todo, b: Todo, c: Todo)
    ensures !(Before(q, a, b) && Before(q, b, a))
    ensures a.id != b.id ==> Before(q, a, b) || Before(q, b, a)
    ensures Before(q, a, b) && Before(q, b, c) ==> Before(q, a, c)
  {
    LexTransitive(a.title, b.title, c.title);
    LexTransitive(c.title, b.title, a.title);
    LexTransitive(b.title, a.title, c.title);
    LexTransitive(c.title, a.title, b.title);
    LexTransitive(a.title, c.title, b.title);
    LexTransitive(b.title, c.title, a.title);
    LexAsymmetric(a.title, b.title);
    LexAsymmetric(b.title, c.title);
    LexAsymmetric(a.title, c.title);
  }

  // ----- answers -----

  predicate Distinct(s: seq<Todo>) { forall i, j :: 0 <= i < j < |s| ==> s[i] != s[j] }

  function Rows(s: seq<Todo>): set<Todo> { set t | t in s }

  /** What the database promises of an ordered result: each selected row once, and no row after one that it precedes. */
  ghost predicate OrderedResult(q: Query, rows: set<Todo>, s: seq<Todo>) {
    && Distinct(s) && Rows(s) == rows
    && forall i, j :: 0 <= i < j < |s| ==> !Before(q, s[j], s[i])
  }

  ghost predicate KeyedRows(rows: set<Todo>) { forall a, b :: a in rows && b in rows && a.id == b.id ==> a == b }

  /** Strictly increasing: the first row precedes all others, and so on. */
  ghost predicate Increasing(q: Query, s: seq<Todo>) {
    s != [] ==> (forall t <- s[1..] :: Before(q, s[0], t)) && Increasing(q, s[1..])
  }

  ghost function Insert(q: Query, t: Todo, s: seq<Todo>): seq<Todo> {
    if s == [] || Before(q, t, s[0]) then [t] + s else [s[0]] + Insert(q, t, s[1..])
  }

  ghost function Sorted(q: Query, rows: set<Todo>): seq<Todo> {
    if rows == {} then [] else var t :| t in rows; Insert(q, t, Sorted(q, rows - {t}))
  }

  lemma {:induction false} InsertIncreasing(q: Query, t: Todo, s: seq<Todo>)
    requires Increasing(q, s) && forall x <- s :: x.id != t.id
    ensures Increasing(q, Insert(q, t, s))
    ensures Rows(Insert(q, t, s)) == Rows(s) + {t}
  {
    if s == [] {
      assert [t][1..] == [];
    } else {
      assert s == [s[0]] + s[1..];
      BeforeIsStrictTotal(q, t, s[0], s[0]);
      if Before(q, t, s[0]) {
        forall x | x in s ensures Before(q, t, x) { BeforeIsStrictTotal(q, t, s[0], x); }
        assert ([t] + s)[1..] == s;
      } else {
        InsertIncreasing(q, t, s[1..]);
        var tail := Insert(q, t, s[1..]);
        assert ([s[0]] + tail)[1..] == tail;
        forall x | x in tail ensures Before(q, s[0], x) {
          assert x in Rows(tail);
          assert x == t || x in s[1..];
        }
      }
    }
  }

  lemma {:induction false} SortedIsIncreasing(q: Query, rows: set<Todo>)
    requires KeyedRows(rows)
    ensures Increasing(q, Sorted(q, rows)) && Rows(Sorted(q, rows)) == rows
  {
    if rows != {} {
      var t :| t in rows && Sorted(q, rows) == Insert(q, t, Sorted(q, rows - {t}));
      SortedIsIncreasing(q, rows - {t});
      forall x | x in Sorted(q, rows - {t}) ensures x.id != t.id { assert x in Rows(Sorted(q, rows - {t})); }
      InsertIncreasing(q, t, Sorted(q, rows - {t}));
    }
  }

  lemma {:induction false} IncreasingPairs(q: Query, s: seq<Todo>, i: nat, j: nat)
    requires Increasing(q, s) && i < j < |s|
    ensures Before(q, s[i], s[j])
  {
    if i == 0 { assert s[j] == s[1..][j - 1]; } else { IncreasingPairs(q, s[1..], i - 1, j - 1); }
  }

  /** Because the order is total, a result that merely does not go back is strictly increasing. */
  lemma {:induction false} OrderedIsIncreasing(q: Query, rows: set<Todo>, s: seq<Todo>)
    requires OrderedResult(q, rows, s) && KeyedRows(rows)
    ensures Increasing(q, s)
  {
    if s != [] {
      forall t | t in s[1..] ensures Before(q, s[0], t) {
        var j :| 0 <= j < |s[1..]| && s[1..][j] == t;
        assert t == s[j + 1] && s[0] in Rows(s) && t in Rows(s);
        BeforeIsStrictTotal(q, s[0], t, t);
      }
      assert forall t :: t in s[1..] ==> t in Rows(s);
      OrderedIsIncreasing(q, Rows(s[1..]), s[1..]);
    }
  }

  lemma NoRows(s: seq<Todo>)
    ensures Rows(s) == {} <==> s == []
  {
    if s != [] { assert s[0] in Rows(s); }
  }

  lemma {:induction false} IncreasingIsUnique(q: Query, s: seq<Todo>, r: seq<Todo>)
    requires Increasing(q, s) && Increasing(q, r) && Rows(s) == Rows(r)
    ensures s == r
  {
    NoRows(s);
    NoRows(r);
    if s != [] {
      assert s == [s[0]] + s[1..] && r == [r[0]] + r[1..];
      assert s[0] in Rows(r) && r[0] in Rows(s);
      BeforeIsStrictTotal(q, s[0], r[0], r[0]);
      BeforeIsStrictTotal(q, s[0], s[0], s[0]);
      assert s[0] == r[0];
      assert Rows(s[1..]) == Rows(s) - {s[0]} && Rows(r[1..]) == Rows(r) - {s[0]};
      IncreasingIsUnique(q, s[1..], r[1..]);
    }
  }

  /** There is exactly one answer that the database may give for a set of rows. */
  lemma ResultIsDetermined(q: Query, rows: set<Todo>, s: seq<Todo>)
    requires KeyedRows(rows)
    ensures OrderedResult(q, rows, s) <==> s == Sorted(q, rows)
  {
    var sorted := Sorted(q, rows);
    SortedIsIncreasing(q, rows);
    forall i, j | 0 <= i < j < |sorted| ensures sorted[i] != sorted[j] && !Before(q, sorted[j], sorted[i]) {
      IncreasingPairs(q, sorted, i, j);
      BeforeIsStrictTotal(q, sorted[i], sorted[j], sorted[j]);
    }
    if OrderedResult(q, rows, s) {
      OrderedIsIncreasing(q, rows, s);
      IncreasingIsUnique(q, s, sorted);
    }
  }

  /** The first difference decides, and a proper prefix comes first. */
  ghost predicate FirstDifference(a: string, b: string, k: nat) {
    k <= |a| && k < |b| && a[..k] == b[..k] && (k == |a| || a[k] < b[k])
  }

  lemma {:induction false} LexLessMeaning(a: string, b: string)
    ensures LexLess(a, b) <==> exists k: nat :: FirstDifference(a, b, k)
  {
    if b != "" {
      forall k: nat | FirstDifference(a, b, k) ensures k == 0 || a[0] == b[0] {
        if k > 0 { assert a[..k][0] == b[..k][0]; }
      }
      if a == "" || a[0] < b[0] {
        assert FirstDifference(a, b, 0);
      } else if a[0] == b[0] {
        LexLessMeaning(a[1..], b[1..]);
        assert a == [a[0]] + a[1..] && b == [b[0]] + b[1..];
        if LexLess(a[1..], b[1..]) {
          var k: nat :| FirstDifference(a[1..], b[1..], k);
          assert a[..k + 1] == [a[0]] + a[1..][..k] && b[..k + 1] == [b[0]] + b[1..][..k];
          assert FirstDifference(a, b, k + 1);
        }
        forall k: nat | FirstDifference(a, b, k) ensures FirstDifference(a[1..], b[1..], k - 1) {
          assert a[1..][..k - 1] == a[..k][1..] && b[1..][..k - 1] == b[..k][1..];
        }
      }
    }
  }

  /** What the order means to a reader: the column rises or falls as asked, rows without a due date come last in both
      directions, and equal columns are ordered by id in the same direction. */
  lemma ResultIsInOrder(q: Query, rows: set<Todo>, s: seq<Todo>, i: nat, j: nat)
    requires OrderedResult(q, rows, s) && KeyedRows(rows) && i < j < |s|
    ensures q.sortBy == CreatedAt ==> InOrder(q, s[i].createdAt, s[j].createdAt, s[i].id, s[j].id)
    ensures q.sortBy == UpdatedAt ==> InOrder(q, s[i].updatedAt, s[j].updatedAt, s[i].id, s[j].id)
    ensures q.sortBy == DueAt ==>
              && (s[i].dueAt.None? ==> s[j].dueAt.None? && InOrder(q, 0, 0, s[i].id, s[j].id))
              && (s[i].dueAt.Some? && s[j].dueAt.Some? ==>
                  InOrder(q, s[i].dueAt.value, s[j].dueAt.value, s[i].id, s[j].id))
    ensures q.sortBy == Title ==>
              && !(if q.direction == Asc then LexLess(s[j].title, s[i].title) else LexLess(s[i].title, s[j].title))
              && (s[i].title == s[j].title ==> InOrder(q, 0, 0, s[i].id, s[j].id))
  {
    OrderedIsIncreasing(q, rows, s);
    IncreasingPairs(q, s, i, j);
    LexAsymmetric(s[i].title, s[j].title);
    LexAsymmetric(s[i].title, s[i].title);
  }

  predicate InOrder(q: Query, a: int, b: int, idA: int, idB: int) {
    if q.direction == Asc then a < b || (a == b && idA < idB) else a > b || (a == b && idA > idB)
  }

  // ----- paging -----

  /** LIMIT and OFFSET. */
  function Page(s: seq<Todo>, limit: nat, offset: nat): seq<Todo> {
    if offset >= |s| then [] else s[offset..Min(offset + limit, |s|)]
  }

  datatype ListAnswer = ListAnswer(items: seq<Todo>, total: nat)

  /** An answer that the two statements of `list_owned_todos` may give on one snapshot. */
  ghost predicate MayAnswer(fold: char -> string, q: Query, table: Table, userId: UserId, limit: nat, offset: nat,
                            a: ListAnswer)
  {
    var rows := Selected(fold, q, table, userId);
    a.total == |rows| && exists s :: OrderedResult(q, rows, s) && a.items == Page(s, limit, offset)
  }

  function Flatten(answers: seq<ListAnswer>): seq<Todo> {
    if answers == [] then [] else Flatten(answers[..|answers| - 1]) + answers[|answers| - 1].items
  }

  predicate KeyedById(table: Table) { forall id <- table :: table[id].id == id }

  lemma PageExtends(s: seq<Todo>, limit: nat, offset: nat)
    ensures s[..Min(offset, |s|)] + Page(s, limit, offset) == s[..Min(offset + limit, |s|)]
  {
  }

  /** The offset of page k: 0, limit, 2 * limit, ... */
  function Offset(k: nat, limit: nat): nat {
    if k == 0 then 0 else Offset(k - 1, limit) + limit
  }

  ghost predicate IsPage(s: seq<Todo>, limit: nat, answer: ListAnswer, k: nat) {
    answer.items == Page(s, limit, Offset(k, limit))
  }

  lemma {:induction false} PagesArePrefix(s: seq<Todo>, limit: nat, answers: seq<ListAnswer>)
    requires forall k :: 0 <= k < |answers| ==> IsPage(s, limit, answers[k], k)
    ensures Flatten(answers) == s[..Min(Offset(|answers|, limit), |s|)]
  {
    if answers != [] {
      var n := |answers| - 1;
      PagesArePrefix(s, limit, answers[..n]);
      PageExtends(s, limit, Offset(n, limit));
      assert IsPage(s, limit, answers[n], n);
    }
  }

  /** Pages tile the result: whatever answers the database gives on one snapshot for offsets 0, limit, 2 * limit, ...,
      enough of them put end to end are the wanted rows, each exactly once, in order, and every `total` is their
      number. */
  lemma PagesTile(fold: char -> string, q: Query, table: Table, userId: UserId, limit: nat, answers: seq<ListAnswer>)
    requires KeyedById(table)
    requires forall k :: 0 <= k < |answers| ==> MayAnswer(fold, q, table, userId, limit, Offset(k, limit), answers[k])
    requires Offset(|answers|, limit) >= |Selected(fold, q, table, userId)|
    ensures OrderedResult(q, Selected(fold, q, table, userId), Flatten(answers))
    ensures forall k :: 0 <= k < |answers| ==> answers[k].total == |Flatten(answers)|
  {
    var rows := Selected(fold, q, table, userId);
    var sorted := Sorted(q, rows);
    forall k | 0 <= k < |answers| ensures IsPage(sorted, limit, answers[k], k) && answers[k].total == |rows| {
      assert MayAnswer(fold, q, table, userId, limit, Offset(k, limit), answers[k]);
      var s :| OrderedResult(q, rows, s) && answers[k].items == Page(s, limit, Offset(k, limit));
      ResultIsDetermined(q, rows, s);
    }
    ResultIsDetermined(q, rows, sorted);
    DistinctCounts(sorted);
    PagesArePrefix(sorted, limit, answers);
    assert sorted[..|sorted|] == sorted;
  }

  lemma {:induction false} DistinctCounts(s: seq<Todo>)
    requires Distinct(s)
    ensures |Rows(s)| == |s|
  {
    if s != [] {
      DistinctCounts(s[1..]);
      assert s == [s[0]] + s[1..];
      assert Rows(s) == Rows(s[1..]) + {s[0]};
    }
  }

  /** And every page can be answered: the query is never stuck. */
  lemma EveryPageHasOneAnswer(fold: char -> string, q: Query, table: Table, userId: UserId, limit: nat, offset: nat,
                              a: ListAnswer)
    requires KeyedById(table)
    ensures var rows := Selected(fold, q, table, userId);
            MayAnswer(fold, q, table, userId, limit, offset, a)
            <==> a == ListAnswer(Page(Sorted(q, rows), limit, offset), |rows|)
  {
    var rows := Selected(fold, q, table, userId);
    ResultIsDetermined(q, rows, Sorted(q, rows));
    if MayAnswer(fold, q, table, userId, limit, offset, a) {
      var s :| OrderedResult(q, rows, s) && a.items == Page(s, limit, offset);
      ResultIsDetermined(q, rows, s);
    }
  }
}
