/** The SQL store of the bot (src/database/db.js): a `leaves` table of requests, a `notes`
    table, a `status_history` table and a key/value `settings` table that also holds the
    request counter. The tables are sequences of rows in insertion (rowid) order; each SQL
    statement is a method that reassigns them or a function that filters them. The moment
    CURRENT_TIMESTAMP stands for is passed in as `now`. */
module LeaveStore {
  import opened Wrappers
  import opened Text
  import opened Sorting

  // ---------------------------------------------------------------------------
  // Rows
  // ---------------------------------------------------------------------------

  /** The lifecycle of a request; `Token` is the text stored in the `status` column. */
  datatype Status = Pending | Approved | Rejected | Cancelled {
    function Token(): string {
      match this
      case Pending => "pending"
      case Approved => "approved"
      case Rejected => "rejected"
      case Cancelled => "cancelled"
    }
  }

  /** A row of `leaves`; nullable columns are options. */
  datatype LeaveRow = LeaveRow(
    requestId: string, userId: string, username: string, reason: string, duration: int,
    startDate: string, endDate: string, status: Status,
    roleId: Option<string>, messageId: Option<string>, channelId: Option<string>,
    createdAt: string, updatedAt: string,
    processedBy: Option<string>, processedAt: Option<string>, rejectionReason: Option<string>)

  datatype NoteRow = NoteRow(requestId: string, adminId: string, adminName: string, note: string,
                             createdAt: string)

  datatype HistoryRow = HistoryRow(requestId: string, oldStatus: Option<Status>, newStatus: Status,
                                   changedBy: string, changedAt: string)

  /** The columns no update statement writes. */
  datatype Identity = Identity(requestId: string, userId: string, username: string, reason: string,
                               duration: int, startDate: string, endDate: string, createdAt: string)

  function IdentityOf(row: LeaveRow): Identity {
    Identity(row.requestId, row.userId, row.username, row.reason, row.duration, row.startDate,
             row.endDate, row.createdAt)
  }

  const CounterKey := "request_counter"
  const LockedKey := "system_locked"
  const LanguageKey := "language"
  const DefaultLanguage := "ar"

  // ---------------------------------------------------------------------------
  // Request ids: "PL-" and the counter, zero-padded to four digits
  // ---------------------------------------------------------------------------

  function FormatRequestId(n: nat): (id: string)
    ensures |id| >= 7 && id[..3] == "PL-"
  {
    "PL-" + PadStart(NatToString(n), 4, '0')
  }

  /** Reads the number back out of an id. */
  function ParseRequestId(id: string): Option<nat> {
    if |id| > 3 && id[..3] == "PL-" && AllRadixDigits(id[3..], 10)
    then Some(RadixValue(id[3..], 10))
    else None
  }

  /** The padding never loses the number: ids round-trip. */
  lemma RequestIdRoundTrip(n: nat)
    ensures ParseRequestId(FormatRequestId(n)) == Some(n)
  {
    var s := NatToString(n);
    var p := PadStart(s, 4, '0');
    var z := p[..|p| - |s|];
    assert p == z + s;
    NatToStringValue(n);
    LeadingZeros(z, s);
    var id := FormatRequestId(n);
    assert id[3..] == p;
  }

  /** Different counter values give different ids. */
  lemma RequestIdInjective(a: nat, b: nat)
    requires FormatRequestId(a) == FormatRequestId(b)
    ensures a == b
  {
    RequestIdRoundTrip(a);
    RequestIdRoundTrip(b);
  }

  predicate IssuedUpTo(id: string, counter: nat) {
    ParseRequestId(id).Some? && ParseRequestId(id).value <= counter
  }

  /** The id made from the next counter value differs from every id issued so far. */
  lemma NextIdIsFresh(rows: seq<LeaveRow>, counter: nat)
    requires forall i :: 0 <= i < |rows| ==> IssuedUpTo(rows[i].requestId, counter)
    ensures forall i :: 0 <= i < |rows| ==> IssuedUpTo(rows[i].requestId, counter + 1)
    ensures forall i :: 0 <= i < |rows| ==> rows[i].requestId != FormatRequestId(counter + 1)
  {
    RequestIdRoundTrip(counter + 1);
  }

  /** Appending a row whose id is fresh and issued keeps the ids unique and issued. */
  lemma AppendFreshId(rows: seq<LeaveRow>, row: LeaveRow, counter: nat)
    requires UniqueIds(rows) && forall i :: 0 <= i < |rows| ==> IssuedUpTo(rows[i].requestId, counter)
    requires row.requestId == FormatRequestId(counter)
    requires forall i :: 0 <= i < |rows| ==> rows[i].requestId != row.requestId
    ensures UniqueIds(rows + [row])
    ensures forall i :: 0 <= i < |rows + [row]| ==> IssuedUpTo((rows + [row])[i].requestId, counter)
  {
    var all := rows + [row];
    RequestIdRoundTrip(counter);
    forall i | 0 <= i < |all|
      ensures IssuedUpTo(all[i].requestId, counter)
    {
      if i < |rows| { assert all[i] == rows[i]; }
    }
    forall i, j | 0 <= i < j < |all|
      ensures all[i].requestId != all[j].requestId
    {
      assert all[i] == rows[i];
      if j < |rows| { assert all[j] == rows[j]; }
    }
  }

  /** The counter setting is written with toString() and read back with parseInt. */
  lemma CounterTextRoundTrip(n: nat)
    ensures IntToString(n) == NatToString(n)
    ensures ParseInt(NatToString(n)) == Some(n)
  {
    ParseIntOfIntToString(n);
  }

  /** The UNIQUE constraint on `request_id`. */
  predicate UniqueIds(rows: seq<LeaveRow>) {
    forall i, j :: 0 <= i < j < |rows| ==> rows[i].requestId != rows[j].requestId
  }

  // ---------------------------------------------------------------------------
  // WHERE clauses
  // ---------------------------------------------------------------------------

  /** The optional filters of searchLeaves; `limit` and `offset` count only when non-zero. */
  datatype SearchOptions = SearchOptions(
    requestId: Option<string>, userId: Option<string>, status: Option<string>,
    startDateFrom: Option<string>, startDateTo: Option<string>,
    limit: Option<int>, offset: Option<int>)

  const NoOptions := SearchOptions(None, None, None, None, None, None, None)

  predicate MatchesOptions(row: LeaveRow, o: SearchOptions) {
    && (Given(o.requestId) ==> row.requestId == o.requestId.value)
    && (Given(o.userId) ==> row.userId == o.userId.value)
    && (Given(o.status) ==> row.status.Token() == o.status.value)
    && (Given(o.startDateFrom) ==> LexLe(o.startDateFrom.value, row.startDate))
    && (Given(o.startDateTo) ==> LexLe(row.startDate, o.startDateTo.value))
  }

  /** The three containment tests of checkOverlappingLeave, as text comparisons. */
  predicate OverlapTests(row: LeaveRow, startDate: string, endDate: string) {
    || (LexLe(row.startDate, startDate) && LexLe(startDate, row.endDate))
    || (LexLe(row.startDate, endDate) && LexLe(endDate, row.endDate))
    || (LexLe(startDate, row.startDate) && LexLe(row.endDate, endDate))
  }

  datatype Query =
    | IdIs(requestId: string)
    | MessageIs(messageId: string)
    | UserIs(userId: string)
    | StatusIs(status: Status)
    | Matches(options: SearchOptions)
    | CreatedBetween(from: string, to: string)
    | RecentOf(user: string, since: string)
    | OverlapOf(owner: string, startDate: string, endDate: string)

  predicate Keep(row: LeaveRow, q: Query) {
    match q
    case IdIs(id) => row.requestId == id
    case MessageIs(m) => row.messageId == Some(m)
    case UserIs(u) => row.userId == u
    case StatusIs(s) => row.status == s
    case Matches(o) => MatchesOptions(row, o)
    case CreatedBetween(from, to) => LexLe(from, row.createdAt) && LexLe(row.createdAt, to)
    case RecentOf(u, since) => row.userId == u && LexLe(since, row.createdAt)
    case OverlapOf(u, s, e) => row.userId == u && row.status == Approved && OverlapTests(row, s, e)
  }

  /** `SELECT * ... WHERE q`, in stored order. */
  function Where(rows: seq<LeaveRow>, q: Query): (r: seq<LeaveRow>)
    ensures |r| <= |rows|
    ensures forall x :: x in r <==> x in rows && Keep(x, q)
    decreases |rows|
  {
    if rows == [] then []
    else (if Keep(rows[0], q) then [rows[0]] else []) + Where(rows[1..], q)
  }

  /** `.get()`: the first row, in stored order, that the WHERE clause keeps. */
  function First(rows: seq<LeaveRow>, q: Query): (r: Option<LeaveRow>)
    ensures r.None? <==> forall i :: 0 <= i < |rows| ==> !Keep(rows[i], q)
    ensures r.Some? ==> r.value in rows && Keep(r.value, q)
    decreases |rows|
  {
    if rows == [] then None
    else if Keep(rows[0], q) then Some(rows[0])
    else First(rows[1..], q)
  }

  /** `.get()` returns the head of what `.all()` would return. */
  lemma {:induction false} FirstIsHeadOfWhere(rows: seq<LeaveRow>, q: Query)
    ensures First(rows, q) == if Where(rows, q) == [] then None else Some(Where(rows, q)[0])
    decreases |rows|
  {
    if rows != [] {
      FirstIsHeadOfWhere(rows[1..], q);
    }
  }

  lemma {:induction false} WhereAppend(a: seq<LeaveRow>, b: seq<LeaveRow>, q: Query)
    ensures Where(a + b, q) == Where(a, q) + Where(b, q)
    decreases |a|
  {
    if a == [] {
      assert a + b == b;
    } else {
      assert (a + b)[1..] == a[1..] + b;
      WhereAppend(a[1..], b, q);
    }
  }

  /** With unique ids the lookup by id finds exactly the row carrying it. */
  lemma FirstByUniqueId(rows: seq<LeaveRow>, i: nat)
    requires UniqueIds(rows) && i < |rows|
    ensures First(rows, IdIs(rows[i].requestId)) == Some(rows[i])
  {
  }

  /** For well-formed ranges (start not after end on both sides), the three containment
      tests say exactly that the two inclusive ranges intersect. */
  lemma OverlapIsIntersection(row: LeaveRow, startDate: string, endDate: string)
    requires LexLe(startDate, endDate) && LexLe(row.startDate, row.endDate)
    ensures OverlapTests(row, startDate, endDate)
        <==> LexLe(row.startDate, endDate) && LexLe(startDate, row.endDate)
  {
    var a, b, s, e := row.startDate, row.endDate, startDate, endDate;
    LexLeTotalOrder(a, s, b);
    LexLeTotalOrder(a, e, b);
    LexLeTotalOrder(s, a, b);
    LexLeTotalOrder(s, b, e);
    LexLeTotalOrder(a, s, e);
    LexLeTotalOrder(s, e, b);
    LexLeTotalOrder(a, b, e);
    LexLeTotalOrder(s, a, e);
    LexLeTotalOrder(b, e, e);
  }

  // ---------------------------------------------------------------------------
  // ORDER BY created_at DESC, LIMIT / OFFSET
  // ---------------------------------------------------------------------------

  predicate NewerOrSame(a: LeaveRow, b: LeaveRow) { LexLe(b.createdAt, a.createdAt) }

  lemma NewerOrSameIsOrder()
    ensures Total(NewerOrSame) && Transitive(NewerOrSame)
  {
    forall a: LeaveRow, b: LeaveRow ensures NewerOrSame(a, b) || NewerOrSame(b, a) {
      LexLeTotalOrder(a.createdAt, b.createdAt, b.createdAt);
    }
    forall a: LeaveRow, b: LeaveRow, c: LeaveRow | NewerOrSame(a, b) && NewerOrSame(b, c)
      ensures NewerOrSame(a, c)
    {
      LexLeTotalOrder(c.createdAt, b.createdAt, a.createdAt);
    }
  }

  function NewestFirst(rows: seq<LeaveRow>): (r: seq<LeaveRow>)
    ensures multiset(r) == multiset(rows) && |r| == |rows|
    ensures forall x :: x in r <==> x in rows
    ensures SortedBy(r, NewerOrSame)
  {
    NewerOrSameIsOrder();
    SortCorrect(rows, NewerOrSame);
    SortMembers(rows, NewerOrSame);
    Sort(rows, NewerOrSame)
  }

  /** Where `OFFSET offset` starts: a negative offset counts as zero. */
  function OffsetStart(offset: int, n: nat): (k: nat)
    ensures k <= n
  {
    if offset <= 0 then 0 else if offset > n then n else offset
  }

  /** `LIMIT limit OFFSET offset` as SQLite applies it: a negative limit is no limit. */
  function Window<T>(s: seq<T>, limit: int, offset: int): (r: seq<T>)
    ensures limit >= 0 ==> |r| <= limit
    ensures forall x :: x in r ==> x in s
    ensures OffsetStart(offset, |s|) + |r| <= |s|
    ensures r == s[OffsetStart(offset, |s|)..OffsetStart(offset, |s|) + |r|]
    ensures limit < 0 || OffsetStart(offset, |s|) + limit >= |s|
        ==> |r| == |s| - OffsetStart(offset, |s|)
    ensures 0 <= limit && OffsetStart(offset, |s|) + limit < |s| ==> |r| == limit
  {
    var start := OffsetStart(offset, |s|);
    var stop := if limit < 0 || start + limit > |s| then |s| else start + limit;
    s[start..stop]
  }

  lemma WindowSorted(s: seq<LeaveRow>, limit: int, offset: int)
    requires SortedBy(s, NewerOrSame)
    ensures SortedBy(Window(s, limit, offset), NewerOrSame)
  {
    var r := Window(s, limit, offset);
    var k := OffsetStart(offset, |s|);
    forall i, j | 0 <= i < j < |r| ensures NewerOrSame(r[i], r[j]) {
      assert r[i] == s[k + i] && r[j] == s[k + j];
    }
  }

  // ---------------------------------------------------------------------------
  // UPDATE statements
  // ---------------------------------------------------------------------------

  /** The SET clause of updateLeaveStatus, updateLeaveMessage or updateLeaveRole. */
  datatype Change =
    | SetStatus(status: Status, processedBy: string, rejectionReason: Option<string>, now: string)
    | SetMessage(messageId: string, channelId: string)
    | SetRole(roleId: string)

  function Apply(row: LeaveRow, c: Change): (r: LeaveRow)
    ensures IdentityOf(r) == IdentityOf(row)
    ensures c.SetStatus? ==>
      && r.status == c.status && r.processedBy == Some(c.processedBy)
      && r.processedAt == Some(c.now) && r.rejectionReason == c.rejectionReason
      && r.roleId == row.roleId && r.messageId == row.messageId && r.channelId == row.channelId
    ensures c.SetMessage? ==> r == row.(messageId := Some(c.messageId), channelId := Some(c.channelId))
    ensures c.SetRole? ==> r == row.(roleId := Some(c.roleId))
  {
    match c
    case SetStatus(st, actor, reason, now) =>
      row.(status := st, processedBy := Some(actor), processedAt := Some(now), updatedAt := now,
           rejectionReason := reason)
    case SetMessage(m, ch) => row.(messageId := Some(m), channelId := Some(ch))
    case SetRole(role) => row.(roleId := Some(role))
  }

  /** `UPDATE leaves SET ... WHERE request_id = id`: every matching row, and no other. */
  function UpdateWhere(rows: seq<LeaveRow>, id: string, c: Change): (r: seq<LeaveRow>)
    ensures |r| == |rows|
    ensures forall i :: 0 <= i < |rows| ==>
      r[i] == if rows[i].requestId == id then Apply(rows[i], c) else rows[i]
    decreases |rows|
  {
    if rows == [] then []
    else [if rows[0].requestId == id then Apply(rows[0], c) else rows[0]] + UpdateWhere(rows[1..], id, c)
  }

  lemma UpdateKeepsIdentity(rows: seq<LeaveRow>, id: string, c: Change)
    ensures forall i :: 0 <= i < |rows| ==> IdentityOf(UpdateWhere(rows, id, c)[i]) == IdentityOf(rows[i])
    ensures UniqueIds(rows) ==> UniqueIds(UpdateWhere(rows, id, c))
  {
  }

  /** An update keeps the store invariant's facts about ids. */
  lemma UpdateKeepsIssued(rows: seq<LeaveRow>, id: string, c: Change, counter: nat)
    requires forall i :: 0 <= i < |rows| ==> IssuedUpTo(rows[i].requestId, counter)
    requires UniqueIds(rows)
    ensures forall i :: 0 <= i < |rows| ==> IssuedUpTo(UpdateWhere(rows, id, c)[i].requestId, counter)
    ensures UniqueIds(UpdateWhere(rows, id, c))
  {
    UpdateKeepsIdentity(rows, id, c);
  }

  /** Reading a row back after an update shows the change on it; other ids read as before. */
  lemma {:induction false} ReadAfterUpdate(rows: seq<LeaveRow>, id: string, c: Change, other: string)
    ensures First(UpdateWhere(rows, id, c), IdIs(id))
         == (if First(rows, IdIs(id)).Some? then Some(Apply(First(rows, IdIs(id)).value, c)) else None)
    ensures other != id ==> First(UpdateWhere(rows, id, c), IdIs(other)) == First(rows, IdIs(other))
    decreases |rows|
  {
    if rows != [] {
      ReadAfterUpdate(rows[1..], id, c, other);
      var head := if rows[0].requestId == id then Apply(rows[0], c) else rows[0];
      assert UpdateWhere(rows, id, c) == [head] + UpdateWhere(rows[1..], id, c);
      assert ([head] + UpdateWhere(rows[1..], id, c))[1..] == UpdateWhere(rows[1..], id, c);
      assert head.requestId == rows[0].requestId by { UpdateKeepsIdentity([rows[0]], id, c); }
    }
  }

  /** An update aimed at a freshly appended row changes that row only. */
  lemma UpdateFreshRow(rows: seq<LeaveRow>, row: LeaveRow, c: Change)
    requires forall i :: 0 <= i < |rows| ==> rows[i].requestId != row.requestId
    ensures UpdateWhere(rows + [row], row.requestId, c) == rows + [Apply(row, c)]
  {
    var r := UpdateWhere(rows + [row], row.requestId, c);
    assert forall i :: 0 <= i < |rows| ==> r[i] == rows[i];
    assert r[|rows|] == Apply(row, c);
  }

  // ---------------------------------------------------------------------------
  // Settings defaults
  // ---------------------------------------------------------------------------

  /** initDatabase's three inserts, each made only when its key is absent. */
  function WithDefaults(m: map<string, string>): (r: map<string, string>)
    ensures forall k :: k in m ==> k in r && r[k] == m[k]
    ensures r.Keys == m.Keys + {LockedKey, LanguageKey, CounterKey}
    ensures LockedKey !in m ==> r[LockedKey] == "false"
    ensures LanguageKey !in m ==> r[LanguageKey] == DefaultLanguage
    ensures CounterKey !in m ==> r[CounterKey] == "0"
  {
    var m1 := if LockedKey in m then m else m[LockedKey := "false"];
    var m2 := if LanguageKey in m1 then m1 else m1[LanguageKey := DefaultLanguage];
    if CounterKey in m2 then m2 else m2[CounterKey := "0"]
  }

  /** Running initDatabase again changes nothing. */
  lemma WithDefaultsIdempotent(m: map<string, string>)
    ensures WithDefaults(WithDefaults(m)) == WithDefaults(m)
  {
  }

  // ---------------------------------------------------------------------------
  // Statistics
  // ---------------------------------------------------------------------------

  datatype TopMember = TopMember(userId: string, username: string, count: nat)

  datatype Statistics = Statistics(
    total: nat, approved: nat, rejected: nat, pending: nat, cancelled: nat,
    averageDuration: real, topMembers: seq<TopMember>)

  /** The optional created_at range: applied only when both bounds are given. */
  function InPeriod(rows: seq<LeaveRow>, startDate: Option<string>, endDate: Option<string>): (r: seq<LeaveRow>)
    ensures !(Given(startDate) && Given(endDate)) ==> r == rows
    ensures Given(startDate) && Given(endDate) ==>
      r == Where(rows, CreatedBetween(startDate.value, endDate.value))
  {
    if Given(startDate) && Given(endDate) then Where(rows, CreatedBetween(startDate.value, endDate.value))
    else rows
  }

  function Count(rows: seq<LeaveRow>, q: Query): nat { |Where(rows, q)| }

  lemma {:induction false} StatusCountsAddUp(rows: seq<LeaveRow>)
    ensures |rows| == Count(rows, StatusIs(Approved)) + Count(rows, StatusIs(Rejected))
                    + Count(rows, StatusIs(Pending)) + Count(rows, StatusIs(Cancelled))
    decreases |rows|
  {
    if rows != [] {
      StatusCountsAddUp(rows[1..]);
    }
  }

  function SumDuration(rows: seq<LeaveRow>): int
    decreases |rows|
  {
    if rows == [] then 0 else rows[0].duration + SumDuration(rows[1..])
  }

  /** `Math.round(x * 10) / 10` on exact reals. */
  function RoundToTenth(x: real): (r: real)
    ensures x - 0.05 < r <= x + 0.05
  {
    ((x * 10.0 + 0.5).Floor as real) / 10.0
  }

  /** The user ids occurring in `rows`. */
  function Users(rows: seq<LeaveRow>): set<string>
    decreases |rows|
  {
    if rows == [] then {} else {rows[0].userId} + Users(rows[1..])
  }

  lemma {:induction false} UserHasRows(rows: seq<LeaveRow>, u: string)
    requires u in Users(rows)
    ensures Count(rows, UserIs(u)) > 0
    decreases |rows|
  {
    if rows[0].userId != u {
      UserHasRows(rows[1..], u);
    }
  }

  /** User ids of `rows`, each once. */
  function DistinctUsers(rows: seq<LeaveRow>): (us: seq<string>)
    ensures forall u :: u in us <==> u in Users(rows)
    ensures forall i, j :: 0 <= i < j < |us| ==> us[i] != us[j]
    decreases |rows|
  {
    if rows == [] then []
    else
      var rest := DistinctUsers(rows[1..]);
      if rows[0].userId in rest then rest else [rows[0].userId] + rest
  }

  /** The username SQLite reports for a group: one of the group's own usernames, taken here
      from the group's first row. */
  function GroupName(rows: seq<LeaveRow>, u: string): (name: string)
    ensures u in Users(rows) ==> exists x :: x in rows && x.userId == u && x.username == name
  {
    var r := First(rows, UserIs(u));
    if r.Some? then r.value.username else assert u !in Users(rows) by { if u in Users(rows) { UserInRows(rows, u); } } ""
  }

  lemma {:induction false} UserInRows(rows: seq<LeaveRow>, u: string)
    requires u in Users(rows)
    ensures exists i :: 0 <= i < |rows| && rows[i].userId == u
    decreases |rows|
  {
    if rows[0].userId != u {
      UserInRows(rows[1..], u);
      var i :| 0 <= i < |rows[1..]| && rows[1..][i].userId == u;
      assert rows[i + 1].userId == u;
    }
  }

  /** `GROUP BY user_id` with `COUNT(*)`. */
  function Groups(rows: seq<LeaveRow>): (g: seq<TopMember>)
    ensures |g| == |DistinctUsers(rows)|
    ensures UniqueUsers(g)
    ensures forall m :: m in g ==> m.count == Count(rows, UserIs(m.userId)) && m.count > 0
    ensures forall u :: u in DistinctUsers(rows) ==> TopMember(u, GroupName(rows, u), Count(rows, UserIs(u))) in g
  {
    var us := DistinctUsers(rows);
    var g := seq(|us|, i requires 0 <= i < |us| => TopMember(us[i], GroupName(rows, us[i]), Count(rows, UserIs(us[i]))));
    forall m | m in g ensures m.count > 0 {
      var i :| 0 <= i < |g| && g[i] == m;
      UserHasRows(rows, us[i]);
    }
    forall u | u in DistinctUsers(rows)
      ensures TopMember(u, GroupName(rows, u), Count(rows, UserIs(u))) in g
    {
      var i :| 0 <= i < |us| && us[i] == u;
      assert g[i] == TopMember(u, GroupName(rows, u), Count(rows, UserIs(u)));
    }
    g
  }

  /** No user is listed twice. */
  predicate UniqueUsers(top: seq<TopMember>) {
    forall i, j :: 0 <= i < j < |top| ==> top[i].userId != top[j].userId
  }

  predicate MoreOrSame(a: TopMember, b: TopMember) { a.count >= b.count }

  lemma MoreOrSameIsOrder()
    ensures Total(MoreOrSame) && Transitive(MoreOrSame)
  {
  }

  /** `ORDER BY count DESC LIMIT 5`. */
  function TopFive(groups: seq<TopMember>): (r: seq<TopMember>)
    ensures |r| == if |groups| < 5 then |groups| else 5
    ensures SortedBy(r, MoreOrSame)
    ensures forall m :: m in r ==> m in groups
    ensures UniqueUsers(groups) ==> UniqueUsers(r)
  {
    MoreOrSameIsOrder();
    SortCorrect(groups, MoreOrSame);
    var sorted := Sort(groups, MoreOrSame);
    SortKeepsUniqueUsers(groups, sorted);
    forall m | m in Take(sorted, 5) ensures m in groups {
      assert m in multiset(sorted);
    }
    Take(sorted, 5)
  }

  /** Reordering the groups keeps every user once. */
  lemma SortKeepsUniqueUsers(groups: seq<TopMember>, sorted: seq<TopMember>)
    requires multiset(sorted) == multiset(groups)
    ensures UniqueUsers(groups) ==> UniqueUsers(sorted)
  {
    if !UniqueUsers(groups) {
      return;
    }
    assert NoRepeats(groups);
    PermutationNoRepeats(groups, sorted);
    forall i, j | 0 <= i < j < |sorted| ensures sorted[i].userId != sorted[j].userId {
      assert sorted[i] in multiset(groups) && sorted[j] in multiset(groups);
      var a :| 0 <= a < |groups| && groups[a] == sorted[i];
      var b :| 0 <= b < |groups| && groups[b] == sorted[j];
      if a < b {
        assert groups[a].userId != groups[b].userId;
      } else if b < a {
        assert groups[b].userId != groups[a].userId;
      }
    }
  }

  /** A member left out of the top five has no more approved leaves than any listed one. */
  lemma TopFiveIsTop(groups: seq<TopMember>, m: TopMember)
    requires m in groups && m !in TopFive(groups)
    ensures forall t :: t in TopFive(groups) ==> t.count >= m.count
  {
    MoreOrSameIsOrder();
    SortCorrect(groups, MoreOrSame);
    var sorted := Sort(groups, MoreOrSame);
    assert m in multiset(groups);
    var k :| 0 <= k < |sorted| && sorted[k] == m;
    var top := TopFive(groups);
    assert top == Take(sorted, 5);
    assert k >= |top|;
  }

  /** `top` ranks the users of `approved` by their number of rows: it lists five of them, or
      all when there are fewer, each user at most once, and no user left out has more rows than a listed one. */
  predicate RanksTop(top: seq<TopMember>, approved: seq<LeaveRow>) {
    && UniqueUsers(top)
    && |top| == (if |DistinctUsers(approved)| < 5 then |DistinctUsers(approved)| else 5)
    && forall u :: u in Users(approved) && (forall t :: t in top ==> t.userId != u) ==>
         forall t :: t in top ==> t.count >= Count(approved, UserIs(u))
  }

  /** The top five of the groups of `approved` ranks its users. */
  lemma TopFiveRanks(approved: seq<LeaveRow>)
    ensures RanksTop(TopFive(Groups(approved)), approved)
  {
    var groups := Groups(approved);
    var top := TopFive(groups);
    forall u | u in Users(approved) && (forall t :: t in top ==> t.userId != u)
      ensures forall t :: t in top ==> t.count >= Count(approved, UserIs(u))
    {
      var m := TopMember(u, GroupName(approved, u), Count(approved, UserIs(u)));
      assert m in groups;
      TopFiveIsTop(groups, m);
    }
  }

  /** getStatistics on the rows of the chosen period. */
  function ComputeStatistics(rows: seq<LeaveRow>, startDate: Option<string>, endDate: Option<string>): (s: Statistics)
    ensures var p := InPeriod(rows, startDate, endDate);
      && s.total == |p|
      && s.approved == Count(p, StatusIs(Approved)) && s.rejected == Count(p, StatusIs(Rejected))
      && s.pending == Count(p, StatusIs(Pending)) && s.cancelled == Count(p, StatusIs(Cancelled))
    ensures s.total == s.approved + s.rejected + s.pending + s.cancelled
    ensures s.approved == 0 ==> s.averageDuration == 0.0
    ensures SortedBy(s.topMembers, MoreOrSame)
    ensures RanksTop(s.topMembers, Where(InPeriod(rows, startDate, endDate), StatusIs(Approved)))
    ensures forall m :: m in s.topMembers ==>
      m.count > 0 && m.count == Count(Where(InPeriod(rows, startDate, endDate), StatusIs(Approved)), UserIs(m.userId))
  {
    var p := InPeriod(rows, startDate, endDate);
    var approved := Where(p, StatusIs(Approved));
    StatusCountsAddUp(p);
    TopFiveRanks(approved);
    var avg := if |approved| == 0 then 0.0 else RoundToTenth(SumDuration(approved) as real / |approved| as real);
    Statistics(|p|, |approved|, Count(p, StatusIs(Rejected)), Count(p, StatusIs(Pending)),
               Count(p, StatusIs(Cancelled)), avg, TopFive(Groups(approved)))
  }

  // ---------------------------------------------------------------------------
  // getUserLeaves
  // ---------------------------------------------------------------------------

  datatype UserLeavesPage = UserLeavesPage(leaves: seq<LeaveRow>, total: nat, pages: nat, currentPage: int)

  /** One page of a user's requests, newest first, with the page count `ceil(total / limit)`. */
  function UserLeaves(rows: seq<LeaveRow>, userId: string, page: int, limit: int): (r: UserLeavesPage)
    requires limit > 0
    ensures r.total == Count(rows, UserIs(userId)) && r.currentPage == page
    ensures |r.leaves| <= limit
    ensures forall x :: x in r.leaves ==> x in rows && x.userId == userId
    ensures SortedBy(r.leaves, NewerOrSame)
    ensures r.total == 0 ==> r.pages == 0
    ensures r.total > 0 ==> (r.pages - 1) * limit < r.total <= r.pages * limit
  {
    var all := NewestFirst(Where(rows, UserIs(userId)));
    var window := Window(all, limit, (page - 1) * limit);
    WindowSorted(all, limit, (page - 1) * limit);
    CeilDiv(|all|, limit);
    UserLeavesPage(window, |all|, (|all| + limit - 1) / limit, page)
  }

  /** `Math.ceil(t / l)` for whole numbers. */
  lemma CeilDiv(t: nat, l: int)
    requires l > 0
    ensures var p := (t + l - 1) / l;
      && p >= 0 && (t == 0 ==> p == 0) && (t > 0 ==> (p - 1) * l < t <= p * l)
  {
    var p := (t + l - 1) / l;
    var r := (t + l - 1) % l;
    assert t + l - 1 == p * l + r;
    assert (p - 1) * l == p * l - l;
  }

  lemma MulMonotone(a: int, b: int, c: int)
    requires a <= b && c >= 0
    ensures a * c <= b * c
  {
  }

  /** Pages 1 .. pages partition the ordered list: the k-th request (from 0) is entry
      k % limit of page k / limit + 1. */
  lemma PagesCoverAll(rows: seq<LeaveRow>, userId: string, limit: int, k: nat)
    requires limit > 0 && k < Count(rows, UserIs(userId))
    ensures var p := UserLeaves(rows, userId, k / limit + 1, limit);
      k % limit < |p.leaves| && p.leaves[k % limit] == NewestFirst(Where(rows, UserIs(userId)))[k]
      && k / limit + 1 <= p.pages
  {
    var all := NewestFirst(Where(rows, UserIs(userId)));
    var p := UserLeaves(rows, userId, k / limit + 1, limit);
    assert p.leaves == Window(all, limit, (k / limit + 1 - 1) * limit);
    PageArithmetic(k, limit, |all|, p.pages);
    PageEntry(all, limit, k);
  }

  /** The k-th entry sits at slot k % limit of the window of page k / limit + 1. */
  lemma PageEntry<T>(all: seq<T>, limit: int, k: nat)
    requires limit > 0 && k < |all|
    ensures var w := Window(all, limit, (k / limit + 1 - 1) * limit);
      k % limit < |w| && w[k % limit] == all[k]
  {
    DivMod(k, limit);
    WindowIndex(all, limit, (k / limit + 1 - 1) * limit, k % limit);
  }

  lemma DivMod(k: nat, limit: int)
    requires limit > 0
    ensures 0 <= k % limit < limit && 0 <= (k / limit + 1 - 1) * limit
    ensures (k / limit + 1 - 1) * limit + k % limit == k
  {
    var q := k / limit;
    MulMonotone(0, q, limit);
    assert (q + 1 - 1) * limit == q * limit;
  }

  /** Entry m of a window starting at a non-negative offset is entry offset + m of the list. */
  lemma WindowIndex<T>(s: seq<T>, limit: int, offset: int, m: nat)
    requires 0 <= offset && m < limit && offset + m < |s|
    ensures m < |Window(s, limit, offset)| && Window(s, limit, offset)[m] == s[offset + m]
  {
  }

  /** Whole-number facts behind PagesCoverAll. */
  lemma PageArithmetic(k: nat, limit: int, total: nat, pages: int)
    requires limit > 0 && k < total && (pages - 1) * limit < total <= pages * limit
    ensures k == (k / limit) * limit + k % limit && 0 <= k % limit < limit
    ensures 0 <= (k / limit) * limit <= k && (k / limit + 1 - 1) * limit == (k / limit) * limit
    ensures k / limit + 1 <= pages
  {
    var q := k / limit;
    MulMonotone(0, q, limit);
    if pages <= q {
      MulMonotone(pages, q, limit);
    }
  }

  // ---------------------------------------------------------------------------
  // searchLeaves
  // ---------------------------------------------------------------------------

  function Search(rows: seq<LeaveRow>, o: SearchOptions): (r: seq<LeaveRow>)
    ensures forall x :: x in r ==> x in rows && MatchesOptions(x, o)
    ensures o.limit.Some? && o.limit.value > 0 ==> |r| <= o.limit.value
  {
    var sorted := NewestFirst(Where(rows, Matches(o)));
    assert forall x :: x in sorted ==> x in rows && MatchesOptions(x, o);
    if o.limit.Some? && o.limit.value != 0
    then Window(sorted, o.limit.value, o.offset.GetOr(0))
    else sorted
  }

  /** The search result is ordered newest first. */
  lemma SearchNewestFirst(rows: seq<LeaveRow>, o: SearchOptions)
    ensures SortedBy(Search(rows, o), NewerOrSame)
  {
    WindowSorted(NewestFirst(Where(rows, Matches(o))), o.limit.GetOr(0), o.offset.GetOr(0));
  }

  /** Without a limit nothing is cut: every matching row is listed, each once. */
  lemma SearchUnlimited(rows: seq<LeaveRow>, o: SearchOptions)
    requires o.limit.None? || o.limit.value == 0
    ensures multiset(Search(rows, o)) == multiset(Where(rows, Matches(o)))
  {
  }

  /** With a positive limit the result is the run of the ordered matches that starts at the
      offset and holds `limit` of them, or all that remain when fewer do. */
  lemma SearchLimited(rows: seq<LeaveRow>, o: SearchOptions)
    requires o.limit.Some? && o.limit.value > 0
    ensures var all := NewestFirst(Where(rows, Matches(o)));
      var k := OffsetStart(o.offset.GetOr(0), |all|);
      && |Search(rows, o)| == (if o.limit.value < |all| - k then o.limit.value else |all| - k)
      && forall m :: 0 <= m < |Search(rows, o)| ==> Search(rows, o)[m] == all[k + m]
  {
    var all := NewestFirst(Where(rows, Matches(o)));
    var r := Search(rows, o);
    assert r == Window(all, o.limit.value, o.offset.GetOr(0));
    WindowSlice(all, o.limit.value, o.offset.GetOr(0));
  }

  lemma WindowSlice<T>(s: seq<T>, limit: int, offset: int)
    requires limit > 0
    ensures var k := OffsetStart(offset, |s|);
      && |Window(s, limit, offset)| == (if limit < |s| - k then limit else |s| - k)
      && forall m :: 0 <= m < |Window(s, limit, offset)| ==> Window(s, limit, offset)[m] == s[k + m]
  {
  }

  /** With no offset and no more matches than the limit, nothing is cut: every matching row
      is listed, each once. */
  lemma SearchWithinLimit(rows: seq<LeaveRow>, o: SearchOptions)
    requires o.limit.Some? && o.limit.value > 0 && o.offset.GetOr(0) <= 0
    requires |Where(rows, Matches(o))| <= o.limit.value
    ensures multiset(Search(rows, o)) == multiset(Where(rows, Matches(o)))
  {
    var all := NewestFirst(Where(rows, Matches(o)));
    assert Search(rows, o) == all;
  }

  /** With no filters and no limit the search lists every row. */
  lemma SearchEverything(rows: seq<LeaveRow>)
    ensures multiset(Search(rows, NoOptions)) == multiset(rows)
  {
    var w := Where(rows, Matches(NoOptions));
    assert w == rows by { WhereAll(rows, Matches(NoOptions)); }
  }

  lemma {:induction false} WhereAll(rows: seq<LeaveRow>, q: Query)
    requires forall x :: x in rows ==> Keep(x, q)
    ensures Where(rows, q) == rows
    decreases |rows|
  {
    if rows != [] {
      WhereAll(rows[1..], q);
    }
  }

  // ---------------------------------------------------------------------------
  // The store
  // ---------------------------------------------------------------------------

  /** The counter setting is the decimal text of `counter`, every stored id was issued from
      it, and ids are unique. */
  predicate StoreInvariant(leaves: seq<LeaveRow>, settings: map<string, string>, counter: nat) {
    CounterKey in settings && settings[CounterKey] == NatToString(counter)
    && (forall i :: 0 <= i < |leaves| ==> IssuedUpTo(leaves[i].requestId, counter))
    && UniqueIds(leaves)
  }

  /** Appending a row under the id of the current counter keeps the invariant. */
  lemma AppendKeepsInvariant(leaves: seq<LeaveRow>, settings: map<string, string>, counter: nat,
                             row: LeaveRow)
    requires StoreInvariant(leaves, settings, counter)
    requires row.requestId == FormatRequestId(counter)
    requires forall i :: 0 <= i < |leaves| ==> leaves[i].requestId != row.requestId
    ensures StoreInvariant(leaves + [row], settings, counter)
  {
    AppendFreshId(leaves, row, counter);
  }

  /** An UPDATE keeps the invariant. */
  lemma UpdateKeepsInvariant(leaves: seq<LeaveRow>, settings: map<string, string>, counter: nat,
                             id: string, c: Change)
    requires StoreInvariant(leaves, settings, counter)
    ensures StoreInvariant(UpdateWhere(leaves, id, c), settings, counter)
  {
    UpdateKeepsIssued(leaves, id, c, counter);
  }

  /** The status_history rows a status change stores: one with the previous status for a
      stored request, none for an unknown id (the foreign key refuses it). */
  function StatusChangeRows(requestId: string, found: Option<LeaveRow>, status: Status, changedBy: string,
                            now: string): seq<HistoryRow>
  {
    if found.Some? then [HistoryRow(requestId, Some(found.value.status), status, changedBy, now)] else []
  }

  class Database {
    var leaves: seq<LeaveRow>
    var notes: seq<NoteRow>
    var history: seq<HistoryRow>
    var settings: map<string, string>
    /** The number the request counter setting holds. */
    ghost var counter: nat

    ghost function Counter(): nat
      reads this
    {
      counter
    }

    ghost predicate Valid()
      reads this
    {
      StoreInvariant(leaves, settings, counter)
    }

    /** A new database file after initDatabase. */
    constructor ()
      ensures leaves == [] && notes == [] && history == []
      ensures settings == WithDefaults(map[])
      ensures Valid() && Counter() == 0
    {
      leaves, notes, history := [], [], [];
      settings := WithDefaults(map[]);
      counter := 0;
      assert WithDefaults(map[])[CounterKey] == "0" == NatToString(0);
    }

    method InitDatabase()
      modifies this
      ensures settings == WithDefaults(old(settings))
      ensures leaves == old(leaves) && notes == old(notes) && history == old(history)
      ensures old(Valid()) ==> Valid() && Counter() == old(Counter())
    {
      settings := WithDefaults(settings);
    }

    /** Reads the counter setting back with parseInt. */
    method ReadCounter() returns (n: nat)
      requires Valid()
      ensures n == Counter()
    {
      CounterTextRoundTrip(counter);
      var parsed := ParseInt(settings[CounterKey]);
      n := parsed.value;
    }

    method GenerateRequestId() returns (id: string)
      requires Valid()
      modifies this
      ensures Valid() && Counter() == old(Counter()) + 1
      ensures settings == old(settings)[CounterKey := NatToString(Counter())]
      ensures id == FormatRequestId(Counter())
      ensures forall i :: 0 <= i < |leaves| ==> leaves[i].requestId != id
      ensures leaves == old(leaves) && notes == old(notes) && history == old(history)
    {
      var current := ReadCounter();
      var newCounter := current + 1;
      NextIdIsFresh(leaves, counter);
      var text := IntToString(newCounter);
      settings := settings[CounterKey := text];
      counter := newCounter;
      id := FormatRequestId(newCounter);
    }

    method CreateLeaveRequest(userId: string, username: string, reason: string, duration: int,
                              startDate: string, endDate: string, now: string)
      returns (requestId: string)
      requires Valid()
      modifies this
      ensures Valid() && Counter() == old(Counter()) + 1
      ensures requestId == FormatRequestId(Counter())
      ensures forall i :: 0 <= i < |old(leaves)| ==> old(leaves)[i].requestId != requestId
      ensures leaves == old(leaves) + [NewLeave(requestId, userId, username, reason, duration,
                                                startDate, endDate, now)]
      ensures settings == old(settings)[CounterKey := NatToString(Counter())]
      ensures notes == old(notes) && history == old(history)
    {
      requestId := GenerateRequestId();
      var row := NewLeave(requestId, userId, username, reason, duration, startDate, endDate, now);
      AppendKeepsInvariant(leaves, settings, counter, row);
      leaves := leaves + [row];
    }

    function GetLeaveRequest(requestId: string): (r: Option<LeaveRow>)
      reads this
      ensures r.Some? <==> exists i :: 0 <= i < |leaves| && leaves[i].requestId == requestId
      ensures r.Some? ==> r.value in leaves && r.value.requestId == requestId
      ensures r.Some? ==> Where(leaves, IdIs(requestId)) != [] && r.value == Where(leaves, IdIs(requestId))[0]
    {
      FirstIsHeadOfWhere(leaves, IdIs(requestId));
      First(leaves, IdIs(requestId))
    }

    function GetLeaveRequestByMessage(messageId: string): (r: Option<LeaveRow>)
      reads this
      ensures r.Some? ==> r.value in leaves && r.value.messageId == Some(messageId)
      ensures r.None? ==> forall i :: 0 <= i < |leaves| ==> leaves[i].messageId != Some(messageId)
    {
      First(leaves, MessageIs(messageId))
    }

    /** updateLeaveStatus: no legality check; the matching row gets the new status and one
        history row records the change. The history table's foreign key refuses a row for an
        unknown request id: the update then matched nothing, no history row is stored and the
        result is None, standing for the error the source raises. Otherwise the result is the
        row read back. */
    method UpdateLeaveStatus(requestId: string, status: Status, processedBy: string,
                             rejectionReason: Option<string>, now: string)
      returns (r: Option<LeaveRow>)
      requires Valid()
      modifies this
      ensures Valid()
      ensures leaves == UpdateWhere(old(leaves), requestId, SetStatus(status, processedBy, rejectionReason, now))
      ensures history == old(history) + StatusChangeRows(requestId, First(old(leaves), IdIs(requestId)), status, processedBy, now)
      ensures r == First(leaves, IdIs(requestId))
      ensures r.None? <==> First(old(leaves), IdIs(requestId)).None?
      ensures notes == old(notes) && settings == old(settings)
      ensures Counter() == old(Counter())
    {
      var change := SetStatus(status, processedBy, rejectionReason, now);
      var oldRequest := First(leaves, IdIs(requestId));
      var updated := UpdateWhere(leaves, requestId, change);
      ReadAfterUpdate(leaves, requestId, change, requestId);
      UpdateKeepsInvariant(leaves, settings, counter, requestId, change);
      r := First(updated, IdIs(requestId));
      history := history + StatusChangeRows(requestId, oldRequest, status, processedBy, now);
      leaves := updated;
    }

    method UpdateLeaveMessage(requestId: string, messageId: string, channelId: string)
      requires Valid()
      modifies this
      ensures Valid()
      ensures leaves == UpdateWhere(old(leaves), requestId, SetMessage(messageId, channelId))
      ensures notes == old(notes) && history == old(history) && settings == old(settings)
      ensures Counter() == old(Counter())
    {
      UpdateKeepsInvariant(leaves, settings, counter, requestId, SetMessage(messageId, channelId));
      leaves := UpdateWhere(leaves, requestId, SetMessage(messageId, channelId));
    }

    method UpdateLeaveRole(requestId: string, roleId: string)
      requires Valid()
      modifies this
      ensures Valid()
      ensures leaves == UpdateWhere(old(leaves), requestId, SetRole(roleId))
      ensures notes == old(notes) && history == old(history) && settings == old(settings)
      ensures Counter() == old(Counter())
    {
      UpdateKeepsInvariant(leaves, settings, counter, requestId, SetRole(roleId));
      leaves := UpdateWhere(leaves, requestId, SetRole(roleId));
    }

    /** addNote: inserts one note. The notes table's foreign key refuses a note for an unknown
        request id: then nothing is stored and the result is false, standing for the error the
        source raises. */
    method AddNote(requestId: string, adminId: string, adminName: string, note: string, now: string)
      returns (added: bool)
      modifies this
      ensures added <==> exists i :: 0 <= i < |leaves| && leaves[i].requestId == requestId
      ensures notes == if added then old(notes) + [NoteRow(requestId, adminId, adminName, note, now)] else old(notes)
      ensures leaves == old(leaves) && history == old(history) && settings == old(settings)
      ensures Counter() == old(Counter())
    {
      added := First(leaves, IdIs(requestId)).Some?;
      if !added {
        assert forall i :: 0 <= i < |leaves| ==> !Keep(leaves[i], IdIs(requestId));
      }
      if added {
        notes := notes + [NoteRow(requestId, adminId, adminName, note, now)];
      }
    }

    function GetUserLeaves(userId: string, page: int, limit: int): (r: UserLeavesPage)
      reads this
      requires limit > 0
      ensures r.total == Count(leaves, UserIs(userId)) && |r.leaves| <= limit
      ensures forall x :: x in r.leaves ==> x in leaves && x.userId == userId
      ensures r == UserLeaves(leaves, userId, page, limit)
    {
      UserLeaves(leaves, userId, page, limit)
    }

    function CheckOverlappingLeave(userId: string, startDate: string, endDate: string): (r: Option<LeaveRow>)
      reads this
      ensures r.Some? ==>
        && r.value in leaves && r.value.userId == userId && r.value.status == Approved
        && OverlapTests(r.value, startDate, endDate)
      ensures r.None? <==> forall i :: 0 <= i < |leaves| ==>
        !(leaves[i].userId == userId && leaves[i].status == Approved && OverlapTests(leaves[i], startDate, endDate))
    {
      First(leaves, OverlapOf(userId, startDate, endDate))
    }

    /** Requests of `userId` created at or after `since` (the start of the rate-limit window). */
    function GetRecentRequestsCount(userId: string, since: string): (n: nat)
      reads this
      ensures n <= |leaves|
      ensures n == Count(leaves, RecentOf(userId, since))
    {
      Count(leaves, RecentOf(userId, since))
    }

    function SearchLeaves(options: SearchOptions): (r: seq<LeaveRow>)
      reads this
      ensures forall x :: x in r ==> x in leaves && MatchesOptions(x, options)
      ensures options.limit.Some? && options.limit.value > 0 ==>
        var n := |Where(leaves, Matches(options))|;
        |r| == (if options.limit.value < n - OffsetStart(options.offset.GetOr(0), n)
                then options.limit.value else n - OffsetStart(options.offset.GetOr(0), n))
      ensures options.limit.None? || options.limit.value == 0 ==>
        multiset(r) == multiset(Where(leaves, Matches(options)))
    {
      if options.limit.Some? && options.limit.value > 0 then
        SearchLimited(leaves, options);
        Search(leaves, options)
      else if options.limit.None? || options.limit.value == 0 then
        SearchUnlimited(leaves, options);
        Search(leaves, options)
      else
        Search(leaves, options)
    }

    function GetStatistics(startDate: Option<string>, endDate: Option<string>): (s: Statistics)
      reads this
      ensures var p := InPeriod(leaves, startDate, endDate);
        && s.total == |p|
        && s.approved == Count(p, StatusIs(Approved)) && s.rejected == Count(p, StatusIs(Rejected))
        && s.pending == Count(p, StatusIs(Pending)) && s.cancelled == Count(p, StatusIs(Cancelled))
      ensures s.total == s.approved + s.rejected + s.pending + s.cancelled
      ensures SortedBy(s.topMembers, MoreOrSame)
      ensures RanksTop(s.topMembers, Where(InPeriod(leaves, startDate, endDate), StatusIs(Approved)))
      ensures forall m :: m in s.topMembers ==>
        m.count > 0 && m.count == Count(Where(InPeriod(leaves, startDate, endDate), StatusIs(Approved)), UserIs(m.userId))
    {
      ComputeStatistics(leaves, startDate, endDate)
    }

    /** Every request, or those created in the period when both bounds are given, newest first. */
    function GetAllLeaves(startDate: Option<string>, endDate: Option<string>): (r: seq<LeaveRow>)
      reads this
      ensures multiset(r) == multiset(InPeriod(leaves, startDate, endDate))
      ensures SortedBy(r, NewerOrSame)
    {
      NewestFirst(InPeriod(leaves, startDate, endDate))
    }

    function GetSetting(key: string): (r: Option<string>)
      reads this
      ensures r.Some? <==> key in settings
      ensures r.Some? ==> r.value == settings[key]
    {
      if key in settings then Some(settings[key]) else None
    }

    /** `INSERT OR REPLACE`: the key now maps to `value`; every other key is unchanged. */
    method SetSetting(key: string, value: string)
      modifies this
      ensures settings == old(settings)[key := value]
      ensures GetSetting(key) == Some(value)
      ensures leaves == old(leaves) && notes == old(notes) && history == old(history)
      ensures old(Valid()) && key != CounterKey ==> Valid()
      ensures Counter() == old(Counter())
    {
      settings := settings[key := value];
    }

    function IsSystemLocked(): (b: bool)
      reads this
      ensures b <==> GetSetting(LockedKey) == Some("true")
    {
      GetSetting(LockedKey) == Some("true")
    }

    method SetSystemLocked(locked: bool)
      requires Valid()
      modifies this
      ensures Valid() && IsSystemLocked() == locked
      ensures settings == old(settings)[LockedKey := if locked then "true" else "false"]
      ensures leaves == old(leaves) && notes == old(notes) && history == old(history)
      ensures Counter() == old(Counter())
    {
      SetSetting(LockedKey, if locked then "true" else "false");
    }

    /** The stored language, or "ar" when it is missing or empty. */
    function GetLanguage(): (lang: string)
      reads this
      ensures lang != ""
      ensures Given(GetSetting(LanguageKey)) ==> lang == settings[LanguageKey]
      ensures !Given(GetSetting(LanguageKey)) ==> lang == DefaultLanguage
    {
      var stored := GetSetting(LanguageKey);
      if Given(stored) then stored.value else DefaultLanguage
    }

    method SetLanguage(lang: string)
      requires Valid()
      modifies this
      ensures Valid()
      ensures settings == old(settings)[LanguageKey := lang]
      ensures lang != "" ==> GetLanguage() == lang
      ensures leaves == old(leaves) && notes == old(notes) && history == old(history)
      ensures Counter() == old(Counter())
    {
      SetSetting(LanguageKey, lang);
    }
  }

  /** The row createLeaveRequest inserts: column defaults for everything not supplied. */
  function NewLeave(requestId: string, userId: string, username: string, reason: string, duration: int,
                    startDate: string, endDate: string, now: string): (r: LeaveRow)
    ensures r.status == Pending
    ensures r.roleId.None? && r.messageId.None? && r.channelId.None?
    ensures r.processedBy.None? && r.processedAt.None? && r.rejectionReason.None?
    ensures IdentityOf(r) == Identity(requestId, userId, username, reason, duration, startDate, endDate, now)
  {
    LeaveRow(requestId, userId, username, reason, duration, startDate, endDate, Pending,
             None, None, None, now, now, None, None, None)
  }

}
