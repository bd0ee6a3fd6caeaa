/** The two legacy slash commands that read the JSON store: the administrators' leave log
    (`commands/leave-logs.js`) and a member's own requests (`commands/my-requests.js`).
    Both sort newest submission first; the log sorts the store's own array when it shows
    every request. The rendered text of the replies is represented by the values it is
    built from. */
module LegacyCommands {
  import opened Wrappers
  import opened Text
  import opened Sorting
  import opened LegacyDatabase
  import opened LegacyUtils

  // ---------------------------------------------------------------------------
  // Newest submission first
  // ---------------------------------------------------------------------------

  /** `new Date(b.submittedAt) - new Date(a.submittedAt)` does not put `b` first: the
      ISO timestamps compare as text exactly as in time. */
  predicate SubmittedNewerOrSame(a: Request, b: Request) { LexLe(b.submittedAt, a.submittedAt) }

  lemma SubmittedNewerOrSameIsOrder()
    ensures Total(SubmittedNewerOrSame) && Transitive(SubmittedNewerOrSame)
  {
    forall a: Request, b: Request ensures SubmittedNewerOrSame(a, b) || SubmittedNewerOrSame(b, a) {
      LexLeTotalOrder(a.submittedAt, b.submittedAt, b.submittedAt);
    }
    forall a: Request, b: Request, c: Request | SubmittedNewerOrSame(a, b) && SubmittedNewerOrSame(b, c)
      ensures SubmittedNewerOrSame(a, c)
    {
      LexLeTotalOrder(c.submittedAt, b.submittedAt, a.submittedAt);
    }
  }

  /** The arrangement `sort` produces: newest first, a permutation of its input. */
  function NewestSubmittedFirst(items: seq<Request>): (r: seq<Request>)
    ensures multiset(r) == multiset(items) && |r| == |items|
    ensures SortedBy(r, SubmittedNewerOrSame)
  {
    SubmittedNewerOrSameIsOrder();
    SortCorrect(items, SubmittedNewerOrSame);
    Sort(items, SubmittedNewerOrSame)
  }

  // ---------------------------------------------------------------------------
  // Counting by status
  // ---------------------------------------------------------------------------

  function HasStatus(status: string): Request -> bool {
    (r: Request) => r.status == status
  }

  /** `requests.filter(r => r.status === status).length`. */
  function CountStatus(items: seq<Request>, status: string): nat {
    |Filter(items, HasStatus(status))|
  }

  /** A count depends on which records there are, not on their order. */
  lemma {:induction false} CountPermutation(a: seq<Request>, b: seq<Request>, keep: Request -> bool)
    requires multiset(a) == multiset(b)
    ensures |Filter(a, keep)| == |Filter(b, keep)|
    decreases |a|
  {
    if a == [] {
      assert |multiset(b)| == 0;
    } else {
      var x := a[0];
      assert x in multiset(b);
      var i :| 0 <= i < |b| && b[i] == x;
      var rest := b[..i] + b[i + 1..];
      RemoveOne(b, i);
      assert a == [x] + a[1..];
      assert multiset(a[1..]) == multiset(a) - multiset{x};
      CountPermutation(a[1..], rest, keep);
      FilterRemoveOne(b, i, keep);
      FilterConcat([x], a[1..], keep);
    }
  }

  /** Taking out the element at `i` takes one copy of it out of the multiset. */
  lemma RemoveOne(b: seq<Request>, i: nat)
    requires i < |b|
    ensures multiset(b[..i] + b[i + 1..]) == multiset(b) - multiset{b[i]}
  {
    assert b == b[..i] + ([b[i]] + b[i + 1..]);
  }

  /** Taking out the element at `i` lowers the count by one exactly when it is kept. */
  lemma FilterRemoveOne(b: seq<Request>, i: nat, keep: Request -> bool)
    requires i < |b|
    ensures |Filter(b, keep)| == |Filter(b[..i] + b[i + 1..], keep)| + (if keep(b[i]) then 1 else 0)
  {
    assert b == b[..i] + ([b[i]] + b[i + 1..]);
    FilterConcat(b[..i], [b[i]] + b[i + 1..], keep);
    FilterConcat([b[i]], b[i + 1..], keep);
    FilterConcat(b[..i], b[i + 1..], keep);
  }

  /** Appending a record raises exactly one count, the one of its own status. */
  lemma CountAppend(items: seq<Request>, added: Request, status: string)
    ensures CountStatus(items + [added], status) == CountStatus(items, status) + (if added.status == status then 1 else 0)
  {
    FilterConcat(items, [added], HasStatus(status));
  }

  /** The three counts of the log add up to at most the number of records, and to exactly
      that number when every record carries one of the three statuses. */
  lemma {:induction false} StatusCountsAddUp(items: seq<Request>)
    ensures CountStatus(items, PendingStatus) + CountStatus(items, AcceptedStatus)
            + CountStatus(items, RejectedStatus) <= |items|
    ensures (forall k :: 0 <= k < |items| ==> items[k].status in {PendingStatus, AcceptedStatus, RejectedStatus}) ==>
              CountStatus(items, PendingStatus) + CountStatus(items, AcceptedStatus)
              + CountStatus(items, RejectedStatus) == |items|
    decreases |items|
  {
    if items != [] {
      var init := items[..|items| - 1];
      var last := items[|items| - 1];
      assert items == init + [last];
      StatusCountsAddUp(init);
      CountAppend(init, last, PendingStatus);
      CountAppend(init, last, AcceptedStatus);
      CountAppend(init, last, RejectedStatus);
    }
  }

  // ---------------------------------------------------------------------------
  // leave-logs
  // ---------------------------------------------------------------------------

  const AllFilter: string := "all"
  const LogListLimit: nat := 5
  const LogReasonLength: nat := 50

  /** The filter option, `'all'` when it is not given. */
  function StatusFilter(option: Option<string>): (r: string)
    ensures Given(option) ==> r == option.value
    ensures !Given(option) ==> r == AllFilter
  {
    if Given(option) then option.value else AllFilter
  }

  /** The records the log is about: all of them, or those whose status equals the filter. */
  function Selected(items: seq<Request>, filter: string): (r: seq<Request>)
    ensures filter == AllFilter ==> r == items
    ensures filter != AllFilter ==> forall x :: x in r <==> x in items && x.status == filter
  {
    if filter == AllFilter then items else Filter(items, HasStatus(filter))
  }

  /** A status filter puts every selected record under its own count and none under the
      other two. */
  lemma FilteredCounts(items: seq<Request>, filter: string, other: string)
    requires filter != AllFilter && other != filter
    ensures CountStatus(Selected(items, filter), filter) == |Selected(items, filter)|
    ensures CountStatus(Selected(items, filter), other) == 0
  {
    var selected := Selected(items, filter);
    FilterAll(selected, HasStatus(filter));
    FilterNone(selected, HasStatus(other));
  }

  /** Filtering keeps nothing when nothing passes. */
  lemma {:induction false} FilterNone(items: seq<Request>, keep: Request -> bool)
    requires forall x :: x in items ==> !keep(x)
    ensures Filter(items, keep) == []
    decreases |items|
  {
    if items != [] {
      FilterNone(items[1..], keep);
    }
  }

  /** Filtering keeps everything when everything passes. */
  lemma {:induction false} FilterAll(items: seq<Request>, keep: Request -> bool)
    requires forall x :: x in items ==> keep(x)
    ensures Filter(items, keep) == items
    decreases |items|
  {
    if items != [] {
      FilterAll(items[1..], keep);
    }
  }

  /** The icon of a listed request: ✅ accepted, ❌ rejected, ⏳ anything else. */
  function StatusIcon(status: string): (icon: string)
    ensures status == AcceptedStatus ==> icon == "✅"
    ensures status == RejectedStatus ==> icon == "❌"
    ensures status != AcceptedStatus && status != RejectedStatus ==> icon == "⏳"
  {
    if status == AcceptedStatus then "✅" else if status == RejectedStatus then "❌" else "⏳"
  }

  /** On the three statuses the icon is the one `statusToEmoji` gives; an unknown status
      shows as pending here but as '❓' there. */
  lemma StatusIconAgreesWithEmoji(status: string)
    ensures status in {PendingStatus, AcceptedStatus, RejectedStatus} ==> StatusIcon(status) == StatusToEmoji(status)
    ensures status !in {PendingStatus, AcceptedStatus, RejectedStatus} ==>
              StatusIcon(status) == "⏳" && StatusToEmoji(status) == "❓"
  {
  }

  /** The listed reason: its first 50 characters, with '...' only when it was longer. */
  function LogReason(reason: string): (r: string)
    ensures r == TruncateText(reason, LogReasonLength)
  {
    (if |reason| <= LogReasonLength then reason else reason[..LogReasonLength])
    + (if |reason| > LogReasonLength then "..." else "")
  }

  /** One listed request of the log. */
  datatype LogEntry = LogEntry(icon: string, id: string, userId: string, reason: string,
                               duration: int, startDate: string, endDate: string, status: string)

  function EntryOf(request: Request): (e: LogEntry)
    ensures e.icon == StatusIcon(request.status) && e.reason == TruncateText(request.reason, LogReasonLength)
    ensures e.id == request.id && e.userId == request.userId && e.status == request.status
  {
    LogEntry(StatusIcon(request.status), request.id, request.userId, LogReason(request.reason),
             request.duration, request.startDate, request.endDate, request.status)
  }

  datatype LogsReply =
    | NoRequests(filter: string)
    | Summary(total: nat, pending: nat, accepted: nat, rejected: nat, entries: seq<LogEntry>,
              more: Option<nat>)

  /** What the log summary says about the sorted selection. */
  predicate SummaryOf(reply: LogsReply, sorted: seq<Request>) {
    && reply.Summary?
    && reply.total == |sorted|
    && reply.pending == CountStatus(sorted, PendingStatus)
    && reply.accepted == CountStatus(sorted, AcceptedStatus)
    && reply.rejected == CountStatus(sorted, RejectedStatus)
    && |reply.entries| == (if |sorted| < LogListLimit then |sorted| else LogListLimit)
    && (forall k :: 0 <= k < |reply.entries| ==> reply.entries[k] == EntryOf(sorted[k]))
    && reply.more == (if |sorted| > LogListLimit then Some(|sorted| - LogListLimit) else None)
  }

  /** The summary of a non-empty sorted selection: the counts, the first five entries built
      one by one, and the number left over. */
  method Summarize(sorted: seq<Request>) returns (reply: LogsReply)
    ensures SummaryOf(reply, sorted)
  {
    var pending := CountStatus(sorted, PendingStatus);
    var accepted := CountStatus(sorted, AcceptedStatus);
    var rejected := CountStatus(sorted, RejectedStatus);
    var shown := if |sorted| < LogListLimit then |sorted| else LogListLimit;
    var entries := ListEntries(sorted[..shown]);
    var more := if |sorted| > LogListLimit then Some(|sorted| - LogListLimit) else None;
    reply := Summary(|sorted|, pending, accepted, rejected, entries, more);
  }

  /** The listing loop: one entry per request, in order. */
  method ListEntries(requests: seq<Request>) returns (entries: seq<LogEntry>)
    ensures |entries| == |requests|
    ensures forall k :: 0 <= k < |requests| ==> entries[k] == EntryOf(requests[k])
  {
    entries := [];
    for i := 0 to |requests|
      invariant |entries| == i
      invariant forall k :: 0 <= k < i ==> entries[k] == EntryOf(requests[k])
    {
      var request := requests[i];
      var entry := LogEntry(StatusIcon(request.status), request.id, request.userId,
                            LogReason(request.reason), request.duration, request.startDate,
                            request.endDate, request.status);
      entries := entries + [entry];
    }
  }

  /** `/سجل_الإجازات`: select, sort newest first (the store's own array when nothing is
      filtered out), then summarise. */
  method LeaveLogs(db: DatabaseManager, option: Option<string>) returns (reply: LogsReply)
    modifies db.requests
    ensures var filter := StatusFilter(option);
      var selected := Selected(old(db.requests.items), filter);
      && (reply.NoRequests? <==> selected == [])
      && (reply.NoRequests? ==> reply.filter == filter && db.requests.items == old(db.requests.items))
      && (reply.Summary? ==> SummaryOf(reply, NewestSubmittedFirst(selected)))
      && (filter == AllFilter && selected != [] ==> db.requests.items == NewestSubmittedFirst(selected))
      && (filter != AllFilter ==> db.requests.items == old(db.requests.items))
  {
    var filter := StatusFilter(option);
    var requests := db.GetAllRequests();
    if filter != AllFilter {
      var copy := new RequestList();
      copy.items := Filter(requests.items, HasStatus(filter));
      requests := copy;
    }
    if |requests.items| == 0 {
      return NoRequests(filter);
    }
    requests.items := NewestSubmittedFirst(requests.items);
    reply := Summarize(requests.items);
  }

  /** The counts shown are those of the selected records, whatever order they are in. */
  lemma LogCountsOfSelection(items: seq<Request>, filter: string, status: string)
    ensures CountStatus(NewestSubmittedFirst(Selected(items, filter)), status)
         == CountStatus(Selected(items, filter), status)
  {
    CountPermutation(NewestSubmittedFirst(Selected(items, filter)), Selected(items, filter), HasStatus(status));
  }

  // ---------------------------------------------------------------------------
  // my-requests
  // ---------------------------------------------------------------------------

  const CardLimit: nat := 10
  const UnspecifiedReason: string := "غير محدد"

  /** The colour of a request card: green accepted, red rejected, orange anything else. */
  function CardColor(status: string): (color: string)
    ensures status == AcceptedStatus ==> color == "#00ff00"
    ensures status == RejectedStatus ==> color == "#ff0000"
    ensures status != AcceptedStatus && status != RejectedStatus ==> color == "#ffa500"
  {
    if status == RejectedStatus then "#ff0000" else if status == AcceptedStatus then "#00ff00" else "#ffa500"
  }

  /** On the three statuses the card colour is the one `statusToColor` gives; an unknown
      status is orange here but grey there. */
  lemma CardColorAgreesWithTable(status: string)
    ensures status in {PendingStatus, AcceptedStatus, RejectedStatus} ==> CardColor(status) == StatusToColor(status)
    ensures status !in {PendingStatus, AcceptedStatus, RejectedStatus} ==>
              CardColor(status) == "#ffa500" && StatusToColor(status) == "#808080"
  {
  }

  /** One request card; the processing time and the role appear only when they are set. */
  datatype RequestCard = RequestCard(icon: string, color: string, id: string, reason: string,
                                     duration: int, status: string, startDate: string,
                                     endDate: string, submittedAt: string,
                                     processedAt: Option<string>, role: Option<string>)

  function CardOf(request: Request): (c: RequestCard)
    ensures c.icon == StatusIcon(request.status) && c.color == CardColor(request.status)
    ensures c.reason == (if request.reason == "" then UnspecifiedReason else request.reason)
    ensures c.processedAt.Some? <==> Given(request.processedAt)
    ensures c.role.Some? <==> Given(request.role)
    ensures c.processedAt.Some? ==> c.processedAt == request.processedAt
    ensures c.role.Some? ==> c.role == request.role
  {
    RequestCard(StatusIcon(request.status), CardColor(request.status), request.id,
                if request.reason == "" then UnspecifiedReason else request.reason,
                request.duration, request.status, request.startDate, request.endDate,
                request.submittedAt,
                if Given(request.processedAt) then request.processedAt else None,
                if Given(request.role) then request.role else None)
  }

  datatype MyRequestsReply = NoRequestsYet | Listing(total: nat, cards: seq<RequestCard>, latestOnlyNote: bool)

  /** `/طلباتي`: the member's records, newest first, at most ten cards, and a note saying
      only the latest ten are shown when there are more. The store is not changed: the
      member's records are a new array. */
  method MyRequests(db: DatabaseManager, userId: string) returns (reply: MyRequestsReply)
    ensures var mine := Filter(db.requests.items, HasUser(userId));
      var sorted := NewestSubmittedFirst(mine);
      && (reply.NoRequestsYet? <==> mine == [])
      && (reply.Listing? ==>
            && reply.total == |mine|
            && |reply.cards| == (if |mine| < CardLimit then |mine| else CardLimit)
            && (forall k :: 0 <= k < |reply.cards| ==> reply.cards[k] == CardOf(sorted[k]))
            && (reply.latestOnlyNote <==> |mine| > CardLimit))
  {
    var requests := db.GetUserRequests(userId);
    if |requests| == 0 {
      return NoRequestsYet;
    }
    requests := NewestSubmittedFirst(requests);
    var shown := if |requests| < CardLimit then |requests| else CardLimit;
    var cards := ListCards(requests[..shown]);
    reply := Listing(|requests|, cards, |requests| > CardLimit);
  }

  /** The card loop: one card per request, in order. */
  method ListCards(requests: seq<Request>) returns (cards: seq<RequestCard>)
    ensures |cards| == |requests|
    ensures forall k :: 0 <= k < |requests| ==> cards[k] == CardOf(requests[k])
  {
    cards := [];
    for i := 0 to |requests|
      invariant |cards| == i
      invariant forall k :: 0 <= k < i ==> cards[k] == CardOf(requests[k])
    {
      var request := requests[i];
      var color := "#ffa500";
      if request.status == AcceptedStatus { color := "#00ff00"; }
      if request.status == RejectedStatus { color := "#ff0000"; }
      var icon := "⏳";
      if request.status == AcceptedStatus { icon := "✅"; }
      if request.status == RejectedStatus { icon := "❌"; }
      var processedAt := if Given(request.processedAt) then request.processedAt else None;
      var role := if Given(request.role) then request.role else None;
      cards := cards + [RequestCard(icon, color, request.id,
                                    if request.reason == "" then UnspecifiedReason else request.reason,
                                    request.duration, request.status, request.startDate,
                                    request.endDate, request.submittedAt, processedAt, role)];
    }
  }

  /** Every card of the listing is one of the member's own records. */
  lemma CardsAreTheMembers(items: seq<Request>, userId: string, k: nat)
    requires k < |NewestSubmittedFirst(Filter(items, HasUser(userId)))|
    ensures NewestSubmittedFirst(Filter(items, HasUser(userId)))[k] in items
    ensures NewestSubmittedFirst(Filter(items, HasUser(userId)))[k].userId == userId
  {
    var mine := Filter(items, HasUser(userId));
    var sorted := NewestSubmittedFirst(mine);
    assert sorted[k] in multiset(sorted);
    assert sorted[k] in mine;
  }
}
