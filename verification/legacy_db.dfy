/** The legacy JSON store (`database.js`): one `DatabaseManager` whose `data.requests` array
    of request objects and `data.embedMessages` dictionary are changed in place. Lookups
    return the first record with a matching field; the list of all requests is handed out
    as the live array itself, so whoever reorders it reorders the store. Saving to and
    loading from the JSON file are not part of this model. */
module LegacyDatabase {
  import opened Wrappers
  import opened Text

  /** The three statuses the legacy bot writes. */
  const PendingStatus: string := "قيد المراجعة"
  const AcceptedStatus: string := "مقبول"
  const RejectedStatus: string := "مرفوض"

  datatype AdminNote = AdminNote(note: string, adminId: string, adminName: string, timestamp: string)

  /** What the submission passes to `addRequest`. */
  datatype RequestData = RequestData(userId: string, username: string, reason: string,
                                     duration: int, startDate: string, endDate: string,
                                     managementMessageId: Option<string>)

  datatype Request = Request(id: string, userId: string, username: string, reason: string,
                             duration: int, startDate: string, endDate: string, status: string,
                             submittedAt: string, processedAt: Option<string>,
                             role: Option<string>, adminNotes: seq<AdminNote>,
                             managementMessageId: Option<string>)

  /** The record `addRequest` builds; `id` is `Date.now()` as text and `now` the ISO time. */
  function NewRequest(data: RequestData, id: string, now: string): (r: Request)
    ensures r.id == id && r.submittedAt == now
    ensures r.status == PendingStatus && r.processedAt.None? && r.role.None? && r.adminNotes == []
    ensures r.managementMessageId.Some? <==> Given(data.managementMessageId)
    ensures r.managementMessageId.Some? ==> r.managementMessageId == data.managementMessageId
    ensures (r.userId, r.username, r.reason, r.duration, r.startDate, r.endDate)
         == (data.userId, data.username, data.reason, data.duration, data.startDate, data.endDate)
  {
    Request(id, data.userId, data.username, data.reason, data.duration, data.startDate,
            data.endDate, PendingStatus, now, None, None, [],
            if Given(data.managementMessageId) then data.managementMessageId else None)
  }

  /** Index of the first record `matches` accepts (`Array.prototype.find`), or the length. */
  function FirstIndex(items: seq<Request>, matches: Request -> bool): (i: nat)
    ensures i <= |items|
    ensures i < |items| ==> matches(items[i])
    ensures forall j :: 0 <= j < i ==> !matches(items[j])
    decreases |items|
  {
    if items == [] || matches(items[0]) then 0 else FirstIndex(items[1..], matches) + 1
  }

  /** `find`: the first matching record, or undefined (None). */
  function Find(items: seq<Request>, matches: Request -> bool): (r: Option<Request>)
    ensures r.None? <==> forall j :: 0 <= j < |items| ==> !matches(items[j])
    ensures r.Some? ==> r.value in items && matches(r.value)
    ensures r.Some? ==> FirstIndex(items, matches) < |items| && r.value == items[FirstIndex(items, matches)]
  {
    var i := FirstIndex(items, matches);
    if i < |items| then Some(items[i]) else None
  }

  function HasId(requestId: string): Request -> bool {
    (r: Request) => r.id == requestId
  }

  function HasMessage(messageId: string): Request -> bool {
    (r: Request) => r.managementMessageId == Some(messageId)
  }

  /** `Array.prototype.filter`: the records `keep` accepts, in stored order. */
  function Filter(items: seq<Request>, keep: Request -> bool): (r: seq<Request>)
    ensures forall x :: x in r <==> x in items && keep(x)
    ensures |r| <= |items|
    decreases |items|
  {
    if items == [] then []
    else
      var rest := Filter(items[1..], keep);
      assert forall x :: x in items <==> x == items[0] || x in items[1..];
      if keep(items[0]) then [items[0]] + rest else rest
  }

  /** Filtering keeps the stored order: it distributes over concatenation. */
  lemma {:induction false} FilterConcat(a: seq<Request>, b: seq<Request>, keep: Request -> bool)
    ensures Filter(a + b, keep) == Filter(a, keep) + Filter(b, keep)
    decreases |a|
  {
    if a == [] {
      assert a + b == b;
    } else {
      assert (a + b)[1..] == a[1..] + b;
      FilterConcat(a[1..], b, keep);
    }
  }

  function HasUser(userId: string): Request -> bool {
    (r: Request) => r.userId == userId
  }

  /** The record after `updateRequestStatus`: status and processing time set, the role replaced
      only by a non-empty one. */
  function StatusSet(request: Request, status: string, role: Option<string>, now: string): (r: Request)
    ensures r.status == status && r.processedAt == Some(now)
    ensures Given(role) ==> r.role == role
    ensures !Given(role) ==> r.role == request.role
    ensures r.(status := request.status, processedAt := request.processedAt, role := request.role) == request
  {
    request.(status := status, processedAt := Some(now), role := if Given(role) then role else request.role)
  }

  /** The record after `addAdminNote`: one note appended, nothing else changed. */
  function NoteAdded(request: Request, note: AdminNote): (r: Request)
    ensures r.adminNotes == request.adminNotes + [note]
    ensures r.(adminNotes := request.adminNotes) == request
  {
    request.(adminNotes := request.adminNotes + [note])
  }

  /** Replacing the first record with a given id by one with the same id: looking that id up
      finds the new record, and every other id finds what it found before. */
  lemma ReadAfterReplace(items: seq<Request>, requestId: string, updated: Request, other: string)
    requires FirstIndex(items, HasId(requestId)) < |items|
    requires updated.id == requestId
    ensures var after := items[FirstIndex(items, HasId(requestId)) := updated];
      && Find(after, HasId(requestId)) == Some(updated)
      && (other != requestId ==> Find(after, HasId(other)) == Find(items, HasId(other)))
  {
    var i := FirstIndex(items, HasId(requestId));
    var after := items[i := updated];
    assert FirstIndex(after, HasId(requestId)) == i by {
      FirstIndexAgrees(items, after, HasId(requestId), i);
    }
    if other != requestId {
      var k := FirstIndex(items, HasId(other));
      assert forall j :: 0 <= j < |items| ==> (HasId(other)(after[j]) <==> HasId(other)(items[j]));
      FirstIndexSame(items, after, HasId(other));
      if k < |items| {
        assert k != i;
      }
    }
  }

  /** Two sequences that agree up to a match at `i` in both have their first match at `i`. */
  lemma FirstIndexAgrees(a: seq<Request>, b: seq<Request>, matches: Request -> bool, i: nat)
    requires i < |a| && i < |b| && FirstIndex(a, matches) == i && matches(b[i])
    requires forall j :: 0 <= j < i ==> a[j] == b[j]
    ensures FirstIndex(b, matches) == i
  {
    assert forall j :: 0 <= j < i ==> !matches(b[j]);
  }

  /** Sequences of the same length that `matches` cannot tell apart have the same first match. */
  lemma FirstIndexSame(a: seq<Request>, b: seq<Request>, matches: Request -> bool)
    requires |a| == |b|
    requires forall j :: 0 <= j < |a| ==> (matches(a[j]) <==> matches(b[j]))
    ensures FirstIndex(a, matches) == FirstIndex(b, matches)
  {
    var i, k := FirstIndex(a, matches), FirstIndex(b, matches);
    assert i == |a| || matches(b[i]);
    assert k == |b| || matches(a[k]);
  }

  /** Appending a record leaves lookups that already succeed unchanged: a second record with
      an id already in the store (two submissions in the same millisecond) is never found by
      that id. */
  lemma FindAfterAppend(items: seq<Request>, added: Request, matches: Request -> bool)
    ensures Find(items, matches).Some? ==> Find(items + [added], matches) == Find(items, matches)
    ensures Find(items, matches).None? ==>
              Find(items + [added], matches) == (if matches(added) then Some(added) else None)
  {
    var after := items + [added];
    var i := FirstIndex(items, matches);
    assert forall j :: 0 <= j < |items| ==> after[j] == items[j];
    if i < |items| {
      FirstIndexAgrees(items, after, matches, i);
    } else {
      assert forall j :: 0 <= j < |items| ==> !matches(after[j]);
      assert after[|items|] == added;
    }
  }

  /** The `data.requests` array, one object shared by every holder of it. */
  class RequestList {
    var items: seq<Request>

    constructor ()
      ensures items == []
    {
      items := [];
    }
  }

  /** `DatabaseManager` with the data it holds after starting without a data file. */
  class DatabaseManager {
    const requests: RequestList
    var embedMessages: map<string, string>

    constructor ()
      ensures fresh(requests) && requests.items == [] && embedMessages == map[]
    {
      requests := new RequestList();
      embedMessages := map[];
    }

    /** `addRequest`: appends the new record at the end and returns it. */
    method AddRequest(data: RequestData, id: string, now: string) returns (r: Request)
      modifies requests
      ensures r == NewRequest(data, id, now)
      ensures requests.items == old(requests.items) + [r]
    {
      r := NewRequest(data, id, now);
      requests.items := requests.items + [r];
    }

    /** `getRequest`. */
    function GetRequest(requestId: string): (r: Option<Request>)
      reads requests
      ensures r.None? <==> forall j :: 0 <= j < |requests.items| ==> requests.items[j].id != requestId
      ensures r.Some? ==> r.value.id == requestId && r.value in requests.items
      ensures r.Some? ==> var i := FirstIndex(requests.items, HasId(requestId));
        i < |requests.items| && r.value == requests.items[i]
    {
      Find(requests.items, HasId(requestId))
    }

    /** `getRequestByManagementMessage`. */
    function GetRequestByManagementMessage(messageId: string): (r: Option<Request>)
      reads requests
      ensures r.None? <==>
                forall j :: 0 <= j < |requests.items| ==> requests.items[j].managementMessageId != Some(messageId)
      ensures r.Some? ==> r.value.managementMessageId == Some(messageId) && r.value in requests.items
      ensures r.Some? ==> var i := FirstIndex(requests.items, HasMessage(messageId));
        i < |requests.items| && r.value == requests.items[i]
    {
      Find(requests.items, HasMessage(messageId))
    }

    /** `getUserRequests`: a new array with that user's records in stored order. */
    function GetUserRequests(userId: string): (r: seq<Request>)
      reads requests
      ensures forall x :: x in r <==> x in requests.items && x.userId == userId
    {
      Filter(requests.items, HasUser(userId))
    }

    /** `getAllRequests`: the live array, not a copy. */
    method GetAllRequests() returns (list: RequestList)
      ensures list == requests
    {
      list := requests;
    }

    /** `updateRequestStatus`: changes the first record with the id in place and returns it;
        an unknown id gives null and changes nothing. */
    method UpdateRequestStatus(requestId: string, status: string, role: Option<string>, now: string)
      returns (r: Option<Request>)
      modifies requests
      ensures var i := FirstIndex(old(requests.items), HasId(requestId));
        if i == |old(requests.items)| then r.None? && requests.items == old(requests.items)
        else && r == Some(StatusSet(old(requests.items)[i], status, role, now))
             && requests.items == old(requests.items)[i := r.value]
    {
      var i := FirstIndex(requests.items, HasId(requestId));
      if i < |requests.items| {
        var updated := StatusSet(requests.items[i], status, role, now);
        requests.items := requests.items[i := updated];
        r := Some(updated);
      } else {
        r := None;
      }
    }

    /** `addAdminNote`: appends one note to the first record with the id. */
    method AddAdminNote(requestId: string, note: string, adminId: string, adminName: string, now: string)
      returns (r: Option<Request>)
      modifies requests
      ensures var i := FirstIndex(old(requests.items), HasId(requestId));
        if i == |old(requests.items)| then r.None? && requests.items == old(requests.items)
        else && r == Some(NoteAdded(old(requests.items)[i], AdminNote(note, adminId, adminName, now)))
             && requests.items == old(requests.items)[i := r.value]
    {
      var i := FirstIndex(requests.items, HasId(requestId));
      if i < |requests.items| {
        var updated := NoteAdded(requests.items[i], AdminNote(note, adminId, adminName, now));
        requests.items := requests.items[i := updated];
        r := Some(updated);
      } else {
        r := None;
      }
    }

    /** `saveEmbedMessage`. */
    method SaveEmbedMessage(channelId: string, messageId: string)
      modifies this
      ensures GetEmbedMessage(channelId) == Some(messageId)
      ensures forall c :: c != channelId ==> GetEmbedMessage(c) == old(GetEmbedMessage(c))
      ensures embedMessages == old(embedMessages)[channelId := messageId]
    {
      embedMessages := embedMessages[channelId := messageId];
    }

    /** `getEmbedMessage`: the saved id, or undefined (None). */
    function GetEmbedMessage(channelId: string): (r: Option<string>)
      reads this
      ensures r.Some? <==> channelId in embedMessages
    {
      if channelId in embedMessages then Some(embedMessages[channelId]) else None
    }
  }
}
