/** The per-user read cache of src/todo_api/core/cache.py and the Todo routes: reads fill it on a miss, writes commit
    first and clear their user's entries afterwards, and the archive job clears nothing. */
module Cache {
  import opened Base
  import opened Todos
  import opened Listing

  // ----- keys -----

  function Decimal(n: nat): string {
    if n < 10 then [('0' as int + n) as char] else Decimal(n / 10) + [('0' as int + n % 10) as char]
  }

  function UserPrefix(namespace: string, userId: UserId): string
    requires userId > 0
  {
    namespace + ":user:" + Decimal(userId)
  }

  /** `todo_cache_key_builder`; without an authenticated positive id it raises. */
  function CacheKey(namespace: string, userId: UserId, digest: string): Option<string> {
    if userId <= 0 then None else Some(UserPrefix(namespace, userId) + ":" + digest)
  }

  lemma {:induction false} DecimalDigits(n: nat)
    ensures Decimal(n) != "" && forall c <- Decimal(n) :: '0' <= c <= '9'
    ensures n >= 10 ==> |Decimal(n)| > 1
  {
    if n >= 10 { DecimalDigits(n / 10); }
  }

  lemma {:induction false} DecimalInjective(m: nat, n: nat)
    requires Decimal(m) == Decimal(n)
    ensures m == n
  {
    var s := Decimal(m);
    DecimalDigits(m);
    DecimalDigits(n);
    if m >= 10 && n >= 10 {
      assert Decimal(m / 10) == s[..|s| - 1] == Decimal(n / 10);
      DecimalInjective(m / 10, n / 10);
    }
  }

  /** Clearing by the user's prefix up to the separator (as the Redis pattern does) hits exactly that user's keys;
      clearing by the bare prefix (as a `startswith` does) also hits every user whose number continues the digits. */
  lemma ClearedKeys(namespace: string, u: UserId, v: UserId, digest: string)
    requires u > 0 && v > 0
    ensures var key := CacheKey(namespace, v, digest).value;
            && (UserPrefix(namespace, u) + ":" <= key <==> u == v)
            && (UserPrefix(namespace, u) <= key <==> Decimal(u) <= Decimal(v))
  {
    var front, du, dv := namespace + ":user:", Decimal(u), Decimal(v);
    var key := CacheKey(namespace, v, digest).value;
    DecimalDigits(u);
    DecimalDigits(v);
    assert key == front + (dv + ":" + digest);
    PrefixAfterFront(front, du, dv + ":" + digest);
    PrefixAfterFront(front, du + ":", dv + ":" + digest);
    assert UserPrefix(namespace, u) + ":" == front + (du + ":");
    PrefixOfDigits(du, dv, digest);
    if du == dv { DecimalInjective(u, v); }
  }

  /** The number that a text of digits names. */
  function Named(digits: string): nat
    requires forall c <- digits :: '0' <= c <= '9'
  {
    if digits == "" then 0
    else
      var front, last := digits[..|digits| - 1], digits[|digits| - 1];
      assert last in digits && forall c <- front :: c in digits;
      10 * Named(front) + (last as int - '0' as int)
  }

  /** Ids are written in decimal, without leading zeros. */
  lemma {:induction false} DecimalNames(n: nat)
    ensures forall c <- Decimal(n) :: '0' <= c <= '9'
    ensures Named(Decimal(n)) == n && (n > 0 ==> Decimal(n) != "" && Decimal(n)[0] != '0')
  {
    DecimalDigits(n);
    if n >= 10 {
      DecimalNames(n / 10);
      DecimalDigits(n / 10);
      assert Decimal(n)[..|Decimal(n)| - 1] == Decimal(n / 10);
    } else {
      assert Decimal(n)[..0] == "";
    }
  }

  /** Two reads share a key exactly if they are of the same user and have the same digest. */
  lemma KeysTellApart(namespace: string, u: UserId, v: UserId, digest: string, other: string)
    ensures CacheKey(namespace, u, digest).Some? <==> u > 0
    ensures u > 0 && v > 0 ==>
              (CacheKey(namespace, u, digest) == CacheKey(namespace, v, other) <==> u == v && digest == other)
  {
    if u > 0 && v > 0 && CacheKey(namespace, u, digest) == CacheKey(namespace, v, other) {
      var front, key := UserPrefix(namespace, u) + ":", CacheKey(namespace, v, other).value;
      assert key == front + digest;
      assert front <= key;
      ClearedKeys(namespace, u, v, other);
      assert key == front + other;
      assert digest == key[|front|..] == other;
    }
  }

  /** The separator ends the digits. */
  lemma {:induction false} PrefixOfDigits(a: string, b: string, rest: string)
    requires forall c <- a :: c != ':'
    requires forall c <- b :: c != ':'
    ensures a <= b + ":" + rest <==> a <= b
    ensures a + ":" <= b + ":" + rest <==> a == b
  {
    var text := b + ":" + rest;
    if a == "" {
      assert b != "" ==> text[0] == b[0] && b[0] in b;
      assert (a + ":")[0] == ':';
      assert b == "" ==> text == ":" + rest;
    } else if b == "" {
      assert a[0] in a && text[0] == ':' && (a + ":")[0] == a[0];
    } else {
      assert forall c <- a[1..] :: c in a;
      assert forall c <- b[1..] :: c in b;
      PrefixOfDigits(a[1..], b[1..], rest);
      assert text == [b[0]] + (b[1..] + ":" + rest);
      assert a == [a[0]] + a[1..] && b == [b[0]] + b[1..];
      PrefixByHead(a, text);
      PrefixByHead(a + ":", text);
      PrefixByHead(a, b);
      assert (a + ":")[1..] == a[1..] + ":" && text[1..] == b[1..] + ":" + rest;
    }
  }

  lemma PrefixByHead(a: string, b: string)
    requires a != "" && b != ""
    ensures a <= b <==> a[0] == b[0] && a[1..] <= b[1..]
  {
    assert a == [a[0]] + a[1..] && b == [b[0]] + b[1..];
  }

  lemma PrefixAfterFront(front: string, a: string, b: string)
    ensures front + a <= front + b <==> a <= b
  {
    if front + a <= front + b {
      assert a == (front + a)[|front|..];
      assert b == (front + b)[|front|..];
    }
  }

  // ----- reads -----

  datatype Read = ListRead(query: Query, limit: nat, offset: nat) | DetailRead(id: int)

  datatype Reply = ListReply(answer: ListAnswer) | DetailReply(todo: Todo) | NotFound

  /** What the service answers on a table. */
  ghost function Serve(fold: char -> string, table: Table, userId: UserId, read: Read): Reply {
    match read
    case ListRead(q, limit, offset) =>
      var rows := Selected(fold, q, table, userId);
      ListReply(ListAnswer(Page(Sorted(q, rows), limit, offset), |rows|))
    case DetailRead(id) => if Owned(table, userId, id) then DetailReply(table[id]) else NotFound
  }

  /** What a reader may expect of a reply: for a list, an answer that the database may give for this query and page; for
      one todo, the row with that id if it is the user's own. */
  ghost predicate RightAnswer(fold: char -> string, table: Table, userId: UserId, read: Read, reply: Reply) {
    match read
    case ListRead(q, limit, offset) =>
      reply.ListReply? && MayAnswer(fold, q, table, userId, limit, offset, reply.answer)
    case DetailRead(id) =>
      match reply
      case DetailReply(t) => id in table && table[id] == t && t.userId == userId
      case NotFound => id !in table || table[id].userId != userId
      case ListReply(_) => false
  }

  /** The service's answer is right, and nothing else is. */
  lemma ServeIsRight(fold: char -> string, table: Table, userId: UserId, read: Read, reply: Reply)
    requires KeyedById(table)
    ensures reply == Serve(fold, table, userId, read) <==> RightAnswer(fold, table, userId, read, reply)
  {
    match read
    case ListRead(q, limit, offset) =>
      if reply.ListReply? { EveryPageHasOneAnswer(fold, q, table, userId, limit, offset, reply.answer); }
    case DetailRead(_) =>
  }

  ghost predicate SameOwnRows(a: Table, b: Table, userId: UserId) {
    forall id :: Owned(a, userId, id) || Owned(b, userId, id) ==>
      Owned(a, userId, id) && Owned(b, userId, id) && a[id] == b[id]
  }

  /** Answers depend on a user's own rows only. */
  lemma OwnRowsDecide(fold: char -> string, a: Table, b: Table, userId: UserId, read: Read)
    requires SameOwnRows(a, b, userId)
    ensures Serve(fold, a, userId, read) == Serve(fold, b, userId, read)
  {
    match read
    case ListRead(q, limit, offset) =>
      SelectedOwned(fold, q, a, b, userId);
      SelectedOwned(fold, q, b, a, userId);
      assert Selected(fold, q, a, userId) == Selected(fold, q, b, userId);
    case DetailRead(id) =>
  }

  lemma SelectedOwned(fold: char -> string, q: Query, a: Table, b: Table, userId: UserId)
    requires SameOwnRows(a, b, userId)
    ensures Selected(fold, q, a, userId) <= Selected(fold, q, b, userId)
  {
    forall id | id in a && Where(Filters(fold, q, userId, a[id])) ensures a[id] in Selected(fold, q, b, userId) {
      assert Filters(fold, q, userId, a[id])[0] == Known(a[id].userId == userId);
      assert Owned(a, userId, id);
    }
  }

  lemma OthersKeepOwnRows(table: Table, c: Call, userId: UserId)
    requires !c.request.ArchiveJob? && c.request.userId != userId
    ensures SameOwnRows(table, Apply(table, c).table, userId)
  {
    var table' := Apply(table, c).table;
    forall id | Owned(table, userId, id) || Owned(table', userId, id)
      ensures Owned(table, userId, id) && Owned(table', userId, id) && table[id] == table'[id]
    {
      if Owned(table, userId, id) {
        OthersUntouched(table, c, id);
      } else {
        CallStep(table, c, id);
      }
    }
  }

  // ----- the cache at work -----

  type Pid = nat

  /** A cached reply, when its filling read started and stored it, and the moment of the table it was read from. */
  datatype CacheEntry = CacheEntry(reply: Reply, startedAt: Time, storedAt: Time, expiresAt: Time, source: nat)

  /** A read that missed: it has queried the table once `reply` is set. */
  datatype Fill = Fill(userId: UserId, read: Read, startedAt: Time, reply: Option<Reply>, source: nat)

  datatype Moment = Moment(at: Time, table: Table)

  datatype State = State(
    table: Table,
    now: Time,
    entries: map<(UserId, Read), CacheEntry>,
    fills: map<Pid, Fill>,
    clears: map<Pid, UserId>,
    past: seq<Moment>)

  datatype Label =
    | Tick(elapsed: nat)
    | StartRead(pid: Pid, userId: UserId, read: Read)
    | QueryTable(pid: Pid)
    | StoreReply(pid: Pid, ok: bool)
    | Write(pid: Pid, call: Call)
    | ClearUser(pid: Pid, ok: bool)
    | Archive(afterDays: nat, fails: bool)

  /** A live entry: what a read is answered from the cache. */
  predicate Hit(s: State, userId: UserId, read: Read) {
    (userId, read) in s.entries && s.now < s.entries[(userId, read)].expiresAt
  }

  function WithoutUser(entries: map<(UserId, Read), CacheEntry>, userId: UserId): map<(UserId, Read), CacheEntry> {
    map k | k in entries && k.0 != userId :: entries[k]
  }

  ghost function Act(fold: char -> string, ttl: Time, s: State, l: Label): State {
    match l
    case Tick(d) => s.(now := s.now + d)
    case StartRead(pid, userId, read) =>
      if pid in s.fills || Hit(s, userId, read) then s
      else s.(fills := s.fills[pid := Fill(userId, read, s.now, None, 0)])
    case QueryTable(pid) =>
      if pid !in s.fills || s.fills[pid].reply.Some? then s
      else
        var reply := Serve(fold, s.table, s.fills[pid].userId, s.fills[pid].read);
        if reply.NotFound? then s.(fills := s.fills - {pid})
        else s.(fills := s.fills[pid := s.fills[pid].(reply := Some(reply), source := |s.past|)])
    case StoreReply(pid, ok) =>
      if pid !in s.fills || s.fills[pid].reply.None? then s
      else
        var f := s.fills[pid];
        var entry := CacheEntry(f.reply.value, f.startedAt, s.now, s.now + ttl, f.source);
        s.(fills := s.fills - {pid}, entries := if ok then s.entries[(f.userId, f.read) := entry] else s.entries)
    case Write(pid, call) =>
      if pid in s.clears || call.request.ArchiveJob? then s
      else
        var effect := Apply(s.table, call);
        if effect.answer.Refused? then s
        else s.(table := effect.table, clears := s.clears[pid := call.request.userId])
    case ClearUser(pid, ok) =>
      if pid !in s.clears then s
      else s.(clears := s.clears - {pid}, entries := if ok then WithoutUser(s.entries, s.clears[pid]) else s.entries)
    case Archive(afterDays, fails) => s.(table := AutoArchive(s.table, afterDays, s.now, fails).table)
  }

  /** One step, recorded: `past` holds the time and the table after every step so far. */
  ghost function Next(fold: char -> string, ttl: Time, s: State, l: Label): State {
    var s' := Act(fold, ttl, s, l);
    s'.(past := s.past + [Moment(s'.now, s'.table)])
  }

  function Initial(table: Table, now: Time): State { State(table, now, map[], map[], map[], [Moment(now, table)]) }

  ghost function Exec(fold: char -> string, ttl: Time, start: State, labels: seq<Label>): State {
    if labels == [] then start
    else Next(fold, ttl, Exec(fold, ttl, start, labels[..|labels| - 1]), labels[|labels| - 1])
  }

  // ----- bounded staleness -----

  /** A reply that the service gave at a recorded moment, not before the read started. */
  ghost predicate ReadFrom(fold: char -> string, s: State, userId: UserId, read: Read, reply: Reply, source: nat,
                           since: Time) {
    && source < |s.past| && since <= s.past[source].at
    && reply == Serve(fold, s.past[source].table, userId, read)
  }

  ghost predicate EntryOk(fold: char -> string, ttl: Time, s: State, key: (UserId, Read), e: CacheEntry) {
    && ReadFrom(fold, s, key.0, key.1, e.reply, e.source, e.startedAt)
    && s.past[e.source].at <= e.storedAt <= s.now && e.expiresAt == e.storedAt + ttl
  }

  ghost predicate FillOk(fold: char -> string, s: State, f: Fill) {
    && f.startedAt <= s.now
    && (f.reply.Some? ==> ReadFrom(fold, s, f.userId, f.read, f.reply.value, f.source, f.startedAt))
  }

  ghost predicate Recorded(fold: char -> string, ttl: Time, s: State) {
    && s.past != [] && s.past[|s.past| - 1] == Moment(s.now, s.table)
    && (forall i :: 0 <= i < |s.past| ==> s.past[i].at <= s.now)
    && (forall key <- s.entries :: EntryOk(fold, ttl, s, key, s.entries[key]))
    && (forall pid <- s.fills :: FillOk(fold, s, s.fills[pid]))
  }

  ghost predicate Later(s: State, s': State) {
    && s'.now >= s.now && |s'.past| > |s.past|
    && forall i :: 0 <= i < |s.past| ==> s'.past[i] == s.past[i]
  }

  lemma EntryStays(fold: char -> string, ttl: Time, s: State, s': State, key: (UserId, Read), e: CacheEntry)
    requires Later(s, s') && EntryOk(fold, ttl, s, key, e)
    ensures EntryOk(fold, ttl, s', key, e)
  {
  }

  lemma FillStays(fold: char -> string, s: State, s': State, f: Fill)
    requires Later(s, s') && FillOk(fold, s, f)
    ensures FillOk(fold, s', f)
  {
  }

  lemma NextIsLater(fold: char -> string, ttl: Time, s: State, l: Label)
    ensures Later(s, Next(fold, ttl, s, l))
  {
  }

  /** The entry that a fill stores now. */
  predicate FilledFrom(ttl: Time, s: State, f: Fill, key: (UserId, Read), e: CacheEntry) {
    && f.reply.Some? && key == (f.userId, f.read)
    && e == CacheEntry(f.reply.value, f.startedAt, s.now, s.now + ttl, f.source)
  }

  /** Entries come from earlier entries or from a fill that has queried; fills from earlier fills, or they start or
      query now. */
  lemma NewEntries(fold: char -> string, ttl: Time, s: State, l: Label, key: (UserId, Read))
    requires key in Next(fold, ttl, s, l).entries
    ensures var e := Next(fold, ttl, s, l).entries[key];
            || (key in s.entries && e == s.entries[key])
            || (exists pid :: pid in s.fills && FilledFrom(ttl, s, s.fills[pid], key, e))
  {
  }

  lemma NewFills(fold: char -> string, ttl: Time, s: State, l: Label, pid: Pid)
    requires pid in Next(fold, ttl, s, l).fills
    ensures var f := Next(fold, ttl, s, l).fills[pid];
            || (pid in s.fills && f == s.fills[pid])
            || (f.startedAt == s.now && f.reply.None?)
            || (&& pid in s.fills && l == QueryTable(pid)
                && f == s.fills[pid].(reply := Some(Serve(fold, s.table, f.userId, f.read)), source := |s.past|))
  {
  }

  lemma RecordedStep(fold: char -> string, ttl: Time, s: State, l: Label)
    requires Recorded(fold, ttl, s)
    ensures Recorded(fold, ttl, Next(fold, ttl, s, l))
  {
    var s' := Next(fold, ttl, s, l);
    NextIsLater(fold, ttl, s, l);
    assert s'.past[|s.past|] == Moment(s'.now, s'.table);
    forall key | key in s'.entries ensures EntryOk(fold, ttl, s', key, s'.entries[key]) {
      NewEntries(fold, ttl, s, l, key);
      if key in s.entries && s'.entries[key] == s.entries[key] {
        EntryStays(fold, ttl, s, s', key, s.entries[key]);
      } else {
        var pid :| pid in s.fills && FilledFrom(ttl, s, s.fills[pid], key, s'.entries[key]);
        assert FillOk(fold, s, s.fills[pid]);
        EntryStays(fold, ttl, s, s', key, s'.entries[key]);
      }
    }
    forall pid | pid in s'.fills ensures FillOk(fold, s', s'.fills[pid]) {
      NewFills(fold, ttl, s, l, pid);
      if pid in s.fills { FillStays(fold, s, s', s.fills[pid]); }
    }
  }

  lemma {:induction false} RecordedAlways(fold: char -> string, ttl: Time, table: Table, now: Time, labels: seq<Label>)
    ensures Recorded(fold, ttl, Exec(fold, ttl, Initial(table, now), labels))
  {
    if labels != [] {
      RecordedAlways(fold, ttl, table, now, labels[..|labels| - 1]);
      RecordedStep(fold, ttl, Exec(fold, ttl, Initial(table, now), labels[..|labels| - 1]), labels[|labels| - 1]);
    }
  }

  /** What the service would have answered at the i-th recorded moment. */
  ghost predicate ServedAt(fold: char -> string, s: State, i: int, userId: UserId, read: Read, reply: Reply) {
    0 <= i < |s.past| && reply == Serve(fold, s.past[i].table, userId, read)
  }

  /** The cached reply was right less than the TTL plus the duration of its filling read ago. */
  ghost predicate RightNotLongAgo(fold: char -> string, ttl: Time, s: State, userId: UserId, read: Read)
    requires (userId, read) in s.entries
  {
    var e := s.entries[(userId, read)];
    exists i :: ServedAt(fold, s, i, userId, read, e.reply) && s.now - s.past[i].at < ttl + (e.storedAt - e.startedAt)
  }

  /** Whatever interleaves, whatever clears fail: a hit returns what the service would have answered that user for that
      query at some moment less than the TTL plus the duration of the filling read ago. */
  lemma BoundedStaleness(fold: char -> string, ttl: Time, table: Table, now: Time, labels: seq<Label>, userId: UserId,
                         read: Read)
    requires Hit(Exec(fold, ttl, Initial(table, now), labels), userId, read)
    ensures RightNotLongAgo(fold, ttl, Exec(fold, ttl, Initial(table, now), labels), userId, read)
  {
    RecordedAlways(fold, ttl, table, now, labels);
    var s := Exec(fold, ttl, Initial(table, now), labels);
    var e := s.entries[(userId, read)];
    assert EntryOk(fold, ttl, s, (userId, read), e);
    assert ServedAt(fold, s, e.source, userId, read, e.reply);
  }

  // ----- coherence -----

  ghost predicate Writing(s: State, userId: UserId) { exists pid :: pid in s.clears && s.clears[pid] == userId }

  ghost predicate Reading(s: State, userId: UserId) { exists pid :: pid in s.fills && s.fills[pid].userId == userId }

  /** A step in which no read of the user overlaps a write of that user, clears succeed and the archive job is idle. */
  ghost predicate Quiet(s: State, l: Label, userId: UserId) {
    match l
    case StartRead(_, u, _) => u == userId ==> !Writing(s, userId)
    case Write(_, call) => !call.request.ArchiveJob? && call.request.userId == userId ==> !Reading(s, userId)
    case ClearUser(pid, ok) => pid in s.clears && s.clears[pid] == userId ==> ok
    case Archive(_, _) => false
    case _ => true
  }

  ghost predicate QuietRun(fold: char -> string, ttl: Time, start: State, labels: seq<Label>, userId: UserId) {
    forall n :: 0 <= n < |labels| ==> Quiet(Exec(fold, ttl, start, labels[..n]), labels[n], userId)
  }

  /** Either a write of the user is under way and no read is, or every entry and every fill is up to date. */
  ghost predicate Coherent(fold: char -> string, s: State, userId: UserId) {
    if Writing(s, userId) then !Reading(s, userId)
    else
      && (forall key <- s.entries :: key.0 == userId ==> s.entries[key].reply == Serve(fold, s.table, userId, key.1))
      && (forall pid <- s.fills :: s.fills[pid].userId == userId && s.fills[pid].reply.Some? ==>
            s.fills[pid].reply.value == Serve(fold, s.table, userId, s.fills[pid].read))
  }

  lemma CoherentWrite(fold: char -> string, ttl: Time, s: State, l: Label, userId: UserId)
    requires Coherent(fold, s, userId) && Quiet(s, l, userId) && l.Write?
    ensures Coherent(fold, Act(fold, ttl, s, l), userId)
  {
    var s' := Act(fold, ttl, s, l);
    if s' != s {
      assert s'.clears[l.pid] == l.call.request.userId;
      assert forall p :: p in s.clears ==> s'.clears[p] == s.clears[p];
      if l.call.request.userId != userId {
        OthersKeepOwnRows(s.table, l.call, userId);
        forall read ensures Serve(fold, s'.table, userId, read) == Serve(fold, s.table, userId, read) {
          OwnRowsDecide(fold, s.table, s'.table, userId, read);
        }
      }
    }
  }

  lemma CoherentClear(fold: char -> string, ttl: Time, s: State, l: Label, userId: UserId)
    requires Coherent(fold, s, userId) && Quiet(s, l, userId) && l.ClearUser?
    ensures Coherent(fold, Act(fold, ttl, s, l), userId)
  {
    if l.pid in s.clears && s.clears[l.pid] != userId {
      assert forall p :: p in s.clears && s.clears[p] == userId ==> p in Act(fold, ttl, s, l).clears;
    }
  }

  lemma CoherentRead(fold: char -> string, ttl: Time, s: State, l: Label, userId: UserId)
    requires Coherent(fold, s, userId) && Quiet(s, l, userId) && !l.Write? && !l.ClearUser?
    ensures Coherent(fold, Act(fold, ttl, s, l), userId)
  {
    var s' := Act(fold, ttl, s, l);
    assert s'.clears == s.clears && s'.table == s.table;
    assert Writing(s', userId) == Writing(s, userId);
    match l
    case Tick(_) =>
    case StartRead(_, _, _) =>
    case QueryTable(_) =>
    case StoreReply(pid, ok) => CoherentStore(fold, ttl, s, pid, ok, userId);
  }

  lemma CoherentStore(fold: char -> string, ttl: Time, s: State, pid: Pid, ok: bool, userId: UserId)
    requires Coherent(fold, s, userId)
    ensures Coherent(fold, Act(fold, ttl, s, StoreReply(pid, ok)), userId)
  {
    var s' := Act(fold, ttl, s, StoreReply(pid, ok));
    assert Writing(s', userId) == Writing(s, userId);
    assert pid in s.fills && s.fills[pid].userId == userId ==> Reading(s, userId);
  }

  lemma CoherentStep(fold: char -> string, ttl: Time, s: State, l: Label, userId: UserId)
    requires Coherent(fold, s, userId) && Quiet(s, l, userId)
    ensures Coherent(fold, Next(fold, ttl, s, l), userId)
  {
    if l.Write? { CoherentWrite(fold, ttl, s, l, userId); }
    else if l.ClearUser? { CoherentClear(fold, ttl, s, l, userId); }
    else { CoherentRead(fold, ttl, s, l, userId); }
    var s0, s' := Act(fold, ttl, s, l), Next(fold, ttl, s, l);
    assert Writing(s', userId) == Writing(s0, userId) && Reading(s', userId) == Reading(s0, userId);
  }

  lemma {:induction false} CoherentAlways(fold: char -> string, ttl: Time, table: Table, now: Time, labels: seq<Label>,
                                          userId: UserId)
    requires QuietRun(fold, ttl, Initial(table, now), labels, userId)
    ensures Coherent(fold, Exec(fold, ttl, Initial(table, now), labels), userId)
  {
    if labels != [] {
      var before := labels[..|labels| - 1];
      forall n | 0 <= n < |before| ensures Quiet(Exec(fold, ttl, Initial(table, now), before[..n]), before[n], userId) {
        assert before[..n] == labels[..n];
      }
      CoherentAlways(fold, ttl, table, now, before, userId);
      CoherentStep(fold, ttl, Exec(fold, ttl, Initial(table, now), before), labels[|labels| - 1], userId);
    }
  }

  /** In runs where no read of a user overlaps that user's writes, clears succeed and the archive job is idle, a hit
      equals a direct read, whatever other users do meanwhile. */
  lemma HitsEqualDirectReads(fold: char -> string, ttl: Time, table: Table, now: Time, labels: seq<Label>,
                             userId: UserId, read: Read)
    requires QuietRun(fold, ttl, Initial(table, now), labels, userId)
    requires var s := Exec(fold, ttl, Initial(table, now), labels); Hit(s, userId, read) && !Writing(s, userId)
    ensures var s := Exec(fold, ttl, Initial(table, now), labels);
            s.entries[(userId, read)].reply == Serve(fold, s.table, userId, read)
  {
    CoherentAlways(fold, ttl, table, now, labels, userId);
  }

  // ----- a stale entry may outlive the TTL counted from the write -----

  /** The steps of a write that overlaps a read: the read misses and queries, the write commits and clears, d passes,
      the read stores, w passes. */
  ghost function AfterQuery(fold: char -> string, ttl: Time, s: State, pid: Pid, userId: UserId, read: Read): State {
    Next(fold, ttl, Next(fold, ttl, s, StartRead(pid, userId, read)), QueryTable(pid))
  }

  ghost function AfterClear(fold: char -> string, ttl: Time, s: State, pid: Pid, call: Call): State {
    Next(fold, ttl, Next(fold, ttl, s, Write(pid, call)), ClearUser(pid, true))
  }

  ghost function AfterStore(fold: char -> string, ttl: Time, s: State, pid: Pid, d: nat, w: nat): State {
    Next(fold, ttl, Next(fold, ttl, Next(fold, ttl, s, Tick(d)), StoreReply(pid, true)), Tick(w))
  }

  /** A read that has queried the table and not stored its reply. */
  ghost predicate Pending(s: State, pid: Pid, userId: UserId, read: Read, reply: Reply) {
    && pid in s.fills && s.fills[pid].userId == userId && s.fills[pid].read == read
    && s.fills[pid].reply == Some(reply)
  }

  lemma QueryPends(fold: char -> string, ttl: Time, s: State, pid: Pid, userId: UserId, read: Read)
    requires pid !in s.fills && !Hit(s, userId, read) && !Serve(fold, s.table, userId, read).NotFound?
    ensures var s' := AfterQuery(fold, ttl, s, pid, userId, read);
            && Pending(s', pid, userId, read, Serve(fold, s.table, userId, read))
            && s'.table == s.table && s'.now == s.now && s'.clears == s.clears
  {
  }

  lemma ClearLeavesPending(fold: char -> string, ttl: Time, s: State, pid: Pid, userId: UserId, read: Read,
                           reply: Reply, call: Call)
    requires Pending(s, pid, userId, read, reply) && pid !in s.clears
    requires !call.request.ArchiveJob? && !Apply(s.table, call).answer.Refused?
    ensures var s' := AfterClear(fold, ttl, s, pid, call);
            && Pending(s', pid, userId, read, reply)
            && s'.table == Apply(s.table, call).table && s'.now == s.now && s'.clears == s.clears
  {
    assert s.clears[pid := call.request.userId] - {pid} == s.clears;
  }

  lemma StoreMakesHit(fold: char -> string, ttl: Time, s: State, pid: Pid, userId: UserId, read: Read, reply: Reply,
                      d: nat, w: nat)
    requires Pending(s, pid, userId, read, reply) && w < ttl
    ensures var s' := AfterStore(fold, ttl, s, pid, d, w);
            && Hit(s', userId, read) && s'.entries[(userId, read)].reply == reply
            && s'.table == s.table && s'.now == s.now + d + w && s'.clears == s.clears
  {
  }

  /** The overlap matters: from any state in which the read misses and for any write that changes its answer, a read
      that queries before the write and stores its reply d after it leaves an entry that is stale although the write has
      finished and its clear succeeded, and that is still answered d + w after the write, for every w below the TTL. */
  lemma OverlapLeavesStaleEntry(fold: char -> string, ttl: Time, s: State, pid: Pid, userId: UserId, read: Read,
                                call: Call, d: nat, w: nat)
    requires pid !in s.fills && pid !in s.clears && !Hit(s, userId, read) && !Writing(s, userId) && w < ttl
    requires !call.request.ArchiveJob? && call.request.userId == userId && !Apply(s.table, call).answer.Refused?
    requires Serve(fold, s.table, userId, read) != Serve(fold, Apply(s.table, call).table, userId, read)
    requires !Serve(fold, s.table, userId, read).NotFound?
    ensures var s1 := AfterQuery(fold, ttl, s, pid, userId, read);
            var s2 := AfterClear(fold, ttl, s1, pid, call);
            var s3 := AfterStore(fold, ttl, s2, pid, d, w);
            && s2.now == s.now && s3.now == s2.now + d + w
            && Hit(s3, userId, read) && !Writing(s3, userId)
            && s3.entries[(userId, read)].reply != Serve(fold, s3.table, userId, read)
  {
    var reply := Serve(fold, s.table, userId, read);
    QueryPends(fold, ttl, s, pid, userId, read);
    var s1 := AfterQuery(fold, ttl, s, pid, userId, read);
    ClearLeavesPending(fold, ttl, s1, pid, userId, read, reply, call);
    StoreMakesHit(fold, ttl, AfterClear(fold, ttl, s1, pid, call), pid, userId, read, reply, d, w);
  }

  /** The recorded moments are those of the run, in order. */
  lemma {:induction false} PastIsTheRun(fold: char -> string, ttl: Time, table: Table, now: Time, labels: seq<Label>,
                                        n: nat)
    requires n <= |labels|
    ensures var s := Exec(fold, ttl, Initial(table, now), labels);
            var past := Exec(fold, ttl, Initial(table, now), labels[..n]);
            && |s.past| == |labels| + 1 && s.past[n] == Moment(past.now, past.table)
            && forall i :: 0 <= i <= n ==> s.past[i].at <= s.past[n].at
    decreases |labels|
  {
    assert labels[..|labels|] == labels;
    RecordedAlways(fold, ttl, table, now, labels);
    if n < |labels| {
      var before := labels[..|labels| - 1];
      assert before[..n] == labels[..n];
      PastIsTheRun(fold, ttl, table, now, before, n);
      NextIsLater(fold, ttl, Exec(fold, ttl, Initial(table, now), before), labels[|labels| - 1]);
    } else if labels != [] {
      PastIsTheRun(fold, ttl, table, now, labels[..|labels| - 1], 0);
    }
  }

  /** And only the overlap does that: if a hit comes a TTL or more after the n-th step, a write say, and was read from
      the table before it, then the read that filled the entry had started by then and stored its reply afterwards. */
  lemma LateHitSpansWrite(fold: char -> string, ttl: Time, table: Table, now: Time, labels: seq<Label>, n: nat,
                          userId: UserId, read: Read)
    requires n < |labels|
    requires var s := Exec(fold, ttl, Initial(table, now), labels);
             && Hit(s, userId, read) && s.entries[(userId, read)].source <= n
             && s.now >= Exec(fold, ttl, Initial(table, now), labels[..n + 1]).now + ttl
    ensures var at := Exec(fold, ttl, Initial(table, now), labels[..n + 1]).now;
            var e := Exec(fold, ttl, Initial(table, now), labels).entries[(userId, read)];
            e.startedAt <= at < e.storedAt
  {
    RecordedAlways(fold, ttl, table, now, labels);
    PastIsTheRun(fold, ttl, table, now, labels, n + 1);
    var s := Exec(fold, ttl, Initial(table, now), labels);
    assert EntryOk(fold, ttl, s, (userId, read), s.entries[(userId, read)]);
  }
}
