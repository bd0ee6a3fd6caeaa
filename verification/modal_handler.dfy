/** The forms an admin or member submits (src/handlers/modalHandler.js): the leave request
    form with its chain of checks, the rejection-reason form and the note form. The clock is
    a parameter: `today` is the current calendar day and `now` the timestamp the store
    records. */
module ModalHandler {
  import opened Wrappers
  import opened Text
  import opened Dates
  import opened LeaveStore
  import opened Permissions
  import opened Lifecycle

  const LeaveRequestModal := "leave_request_modal"
  const RejectModalPrefix := "reject_modal_"
  const NoteModalPrefix := "note_modal_"

  datatype ModalKind = LeaveRequestForm | RejectionForm | NoteForm | UnknownModal

  /** handleModal: the exact id of the leave form first, then the two prefixes. */
  function ModalDispatch(customId: string): (k: ModalKind)
    ensures k == LeaveRequestForm <==> customId == LeaveRequestModal
    ensures k == RejectionForm <==> customId != LeaveRequestModal && StartsWith(customId, RejectModalPrefix)
    ensures k == NoteForm <==>
      && customId != LeaveRequestModal && !StartsWith(customId, RejectModalPrefix)
      && StartsWith(customId, NoteModalPrefix)
    ensures k == UnknownModal <==>
      && customId != LeaveRequestModal && !StartsWith(customId, RejectModalPrefix)
      && !StartsWith(customId, NoteModalPrefix)
  {
    if customId == LeaveRequestModal then LeaveRequestForm
    else if StartsWith(customId, RejectModalPrefix) then RejectionForm
    else if StartsWith(customId, NoteModalPrefix) then NoteForm
    else UnknownModal
  }

  /** The request id a rejection form names: its id with the first "reject_modal_" removed. */
  function RejectionRequestId(customId: string): string {
    ReplaceFirst(customId, RejectModalPrefix, "")
  }

  /** The request id a note form names: its id with the first "note_modal_" removed. */
  function NoteRequestId(customId: string): string {
    ReplaceFirst(customId, NoteModalPrefix, "")
  }

  // ---------------------------------------------------------------------------
  // The leave request form
  // ---------------------------------------------------------------------------

  /** The four text inputs of the leave request form. */
  datatype Submission = Submission(reason: string, durationText: string, startText: string,
                                   endText: string)

  datatype SubmissionError =
    | InvalidDuration
    | InvalidDate
    | StartDatePast
    | EndDateBeforeStart
    | DurationMismatch(calculated: int)
    | OverlappingLeave(requestId: string, startDate: string, endDate: string)
    | MaxDurationExceeded(maxDays: int)

  /** Number of calendar days from `start` to `end`, both included. */
  function DaysSpanned(start: Date, end: Date): int
    requires IsValidDate(start) && IsValidDate(end)
  {
    DayNumber(end) - DayNumber(start) + 1
  }

  /** The day number of date text, when it names a real day (`new Date(text)` is valid). */
  function DayOf(text: string): (d: Option<int>)
    ensures d.Some? <==> ParseDate(text).Some?
    ensures d.Some? ==> d.value == DayNumber(ParseDate(text).value)
  {
    if ParseDate(text).Some? then Some(DayNumber(ParseDate(text).value)) else None
  }

  /** What the checks look at, read off the form, the store and the clock. */
  datatype Facts = Facts(duration: Option<int>, patternsMatch: bool, startDay: Option<int>,
                         endDay: Option<int>, today: int, overlapping: Option<LeaveRow>,
                         maxDuration: Option<int>)

  function FactsOf(leaves: seq<LeaveRow>, userId: string, sub: Submission, today: Date,
                   maxDuration: Option<int>): Facts
    requires IsValidDate(today)
  {
    Facts(ParseInt(sub.durationText),
          MatchesDatePattern(sub.startText) && MatchesDatePattern(sub.endText),
          DayOf(sub.startText), DayOf(sub.endText), DayNumber(today),
          First(leaves, OverlapOf(userId, sub.startText, sub.endText)), maxDuration)
  }

  /** The chain of checks in source order; the first failure is reported. */
  function RunChecks(f: Facts): (r: Result<int, SubmissionError>)
    ensures r.Ok? ==>
      && f.duration == Some(r.value) && r.value >= 1 && f.patternsMatch
      && f.startDay.Some? && f.endDay.Some? && f.today <= f.startDay.value
      && r.value == f.endDay.value - f.startDay.value + 1
      && f.overlapping.None? && (f.maxDuration.Some? ==> r.value <= f.maxDuration.value)
    ensures r.Err? && r.error.DurationMismatch? ==>
      && f.startDay.Some? && f.endDay.Some?
      && r.error.calculated == f.endDay.value - f.startDay.value + 1 >= 1
      && f.duration != Some(r.error.calculated)
    ensures r.Err? && r.error.OverlappingLeave? ==>
      && f.overlapping.Some?
      && r.error == OverlappingLeave(f.overlapping.value.requestId, f.overlapping.value.startDate,
                                     f.overlapping.value.endDate)
    ensures r.Err? && r.error.MaxDurationExceeded? ==>
      f.maxDuration == Some(r.error.maxDays) && f.duration.Some? && f.duration.value > r.error.maxDays
  {
    if f.duration.None? || f.duration.value <= 0 then Err(InvalidDuration)
    else if !f.patternsMatch then Err(InvalidDate)
    else if f.startDay.None? || f.endDay.None? then Err(InvalidDate)
    else if f.startDay.value < f.today then Err(StartDatePast)
    else if f.endDay.value < f.startDay.value then Err(EndDateBeforeStart)
    else if f.duration.value != f.endDay.value - f.startDay.value + 1 then
      Err(DurationMismatch(f.endDay.value - f.startDay.value + 1))
    else if f.overlapping.Some? then
      Err(OverlappingLeave(f.overlapping.value.requestId, f.overlapping.value.startDate,
                           f.overlapping.value.endDate))
    else if f.maxDuration.Some? && f.duration.value > f.maxDuration.value then
      Err(MaxDurationExceeded(f.maxDuration.value))
    else Ok(f.duration.value)
  }

  /** handleLeaveRequestSubmission's checks on a form; on success the result is the
      requested number of days, which is the number of days the dates span, and no approved
      leave of the member overlaps the dates. */
  function ValidateSubmission(leaves: seq<LeaveRow>, userId: string, sub: Submission, today: Date,
                              maxDuration: Option<int>): (r: Result<int, SubmissionError>)
    requires IsValidDate(today)
    ensures r.Ok? ==>
      && ParseInt(sub.durationText) == Some(r.value) && r.value >= 1
      && DayOf(sub.startText).Some? && DayOf(sub.endText).Some?
      && DayNumber(today) <= DayOf(sub.startText).value
      && r.value == DayOf(sub.endText).value - DayOf(sub.startText).value + 1
      && First(leaves, OverlapOf(userId, sub.startText, sub.endText)).None?
      && (maxDuration.Some? ==> r.value <= maxDuration.value)
    ensures r.Err? && r.error.DurationMismatch? ==>
      && DayOf(sub.startText).Some? && DayOf(sub.endText).Some?
      && r.error.calculated == DayOf(sub.endText).value - DayOf(sub.startText).value + 1 >= 1
      && ParseInt(sub.durationText) != Some(r.error.calculated)
    ensures r.Err? && r.error.OverlappingLeave? ==>
      var other := First(leaves, OverlapOf(userId, sub.startText, sub.endText));
      other.Some? && r.error == OverlappingLeave(other.value.requestId, other.value.startDate,
                                                 other.value.endDate)
    ensures r.Err? && r.error.MaxDurationExceeded? ==>
      maxDuration == Some(r.error.maxDays) && ParseInt(sub.durationText).Some?
      && ParseInt(sub.durationText).value > r.error.maxDays
  {
    RunChecks(FactsOf(leaves, userId, sub, today, maxDuration))
  }

  /** The checks, each stated on its own. */
  datatype Check = DurationCheck | DateCheck | PastCheck | OrderCheck | MatchCheck | OverlapCheck | CapCheck {
    function Rank(): nat {
      match this
      case DurationCheck => 0
      case DateCheck => 1
      case PastCheck => 2
      case OrderCheck => 3
      case MatchCheck => 4
      case OverlapCheck => 5
      case CapCheck => 6
    }
  }

  predicate Passes(c: Check, f: Facts) {
    var readable := f.patternsMatch && f.startDay.Some? && f.endDay.Some?;
    match c
    case DurationCheck => f.duration.Some? && f.duration.value > 0
    case DateCheck => readable
    case PastCheck => readable && f.today <= f.startDay.value
    case OrderCheck => readable && f.startDay.value <= f.endDay.value
    case MatchCheck => readable && f.duration == Some(f.endDay.value - f.startDay.value + 1)
    case OverlapCheck => f.overlapping.None?
    case CapCheck => f.maxDuration.None? || (f.duration.Some? && f.duration.value <= f.maxDuration.value)
  }

  /** The check an error reports. */
  function FailedCheck(e: SubmissionError): Check {
    match e
    case InvalidDuration => DurationCheck
    case InvalidDate => DateCheck
    case StartDatePast => PastCheck
    case EndDateBeforeStart => OrderCheck
    case DurationMismatch(_) => MatchCheck
    case OverlappingLeave(_, _, _) => OverlapCheck
    case MaxDurationExceeded(_) => CapCheck
  }

  /** The chain stops at the first check that fails: an error names a failing check and
      every earlier check passed; a success means every check passed. */
  lemma FirstFailingCheck(f: Facts)
    ensures var r := RunChecks(f);
      && (r.Ok? <==> forall c: Check :: Passes(c, f))
      && (r.Err? ==> !Passes(FailedCheck(r.error), f))
      && (r.Err? ==> forall c: Check :: c.Rank() < FailedCheck(r.error).Rank() ==> Passes(c, f))
  {
    var r := RunChecks(f);
    if r.Err? {
      assert !Passes(FailedCheck(r.error), f);
      forall c: Check | c.Rank() < FailedCheck(r.error).Rank() ensures Passes(c, f) {
      }
    } else {
      forall c: Check ensures Passes(c, f) {
      }
    }
  }

  /** A leave that starts and ends on the same (not past) day spans one day: it is accepted
      with duration 1 and refused, showing 1, for any other positive duration. */
  lemma SameDayLeave(leaves: seq<LeaveRow>, userId: string, sub: Submission, today: Date,
                     maxDuration: Option<int>)
    requires IsValidDate(today)
    requires sub.startText == sub.endText && ParseDate(sub.startText).Some?
    requires DayNumber(today) <= DayNumber(ParseDate(sub.startText).value)
    requires ParseInt(sub.durationText).Some? && ParseInt(sub.durationText).value > 0
    requires forall i :: 0 <= i < |leaves| ==> !Keep(leaves[i], OverlapOf(userId, sub.startText, sub.endText))
    requires maxDuration.None? || maxDuration.value >= 1
    ensures ParseInt(sub.durationText) == Some(1) ==>
              ValidateSubmission(leaves, userId, sub, today, maxDuration) == Ok(1)
    ensures ParseInt(sub.durationText) != Some(1) ==>
              ValidateSubmission(leaves, userId, sub, today, maxDuration) == Err(DurationMismatch(1))
  {
    var f := FactsOf(leaves, userId, sub, today, maxDuration);
    assert f.duration == ParseInt(sub.durationText);
    assert f.startDay == f.endDay == DayOf(sub.startText);
    assert f.patternsMatch;
    assert f.overlapping.None?;
    SameDayChecks(f);
  }

  /** The chain on the facts of a one-day leave. */
  lemma SameDayChecks(f: Facts)
    requires f.duration.Some? && f.duration.value > 0 && f.patternsMatch
    requires f.startDay.Some? && f.startDay == f.endDay && f.today <= f.startDay.value
    requires f.overlapping.None? && (f.maxDuration.None? || f.maxDuration.value >= 1)
    ensures f.duration == Some(1) ==> RunChecks(f) == Ok(1)
    ensures f.duration != Some(1) ==> RunChecks(f) == Err(DurationMismatch(1))
  {
  }

  /** Dates of a request that read as a real, ordered range of days. */
  predicate WellDated(row: LeaveRow) {
    && ParseDate(row.startDate).Some? && ParseDate(row.endDate).Some?
    && DayNumber(ParseDate(row.startDate).value) <= DayNumber(ParseDate(row.endDate).value)
  }

  /** An accepted leave shares no day with any approved, well-dated leave of the same member:
      the text comparisons of checkOverlappingLeave amount to the day ranges intersecting. */
  lemma AcceptedLeaveIsDisjoint(leaves: seq<LeaveRow>, userId: string, sub: Submission, today: Date,
                                maxDuration: Option<int>, other: LeaveRow)
    requires IsValidDate(today)
    requires ValidateSubmission(leaves, userId, sub, today, maxDuration).Ok?
    requires other in leaves && other.userId == userId && other.status == Approved && WellDated(other)
    ensures var s, e := ParseDate(sub.startText).value, ParseDate(sub.endText).value;
      var os, oe := ParseDate(other.startDate).value, ParseDate(other.endDate).value;
      DayNumber(oe) < DayNumber(s) || DayNumber(e) < DayNumber(os)
  {
    var q := OverlapOf(userId, sub.startText, sub.endText);
    assert First(leaves, q).None?;
    assert !Keep(other, q);
    assert DayOf(sub.startText).value <= DayOf(sub.endText).value;
    OverlapNeedsTests(other, userId, sub.startText, sub.endText);
    NoOverlapMeansDisjoint(other, sub.startText, sub.endText);
  }

  /** An approved request of the member escapes the overlap query only by failing its tests. */
  lemma OverlapNeedsTests(row: LeaveRow, userId: string, startText: string, endText: string)
    requires row.userId == userId && row.status == Approved
    ensures Keep(row, OverlapOf(userId, startText, endText)) <==> OverlapTests(row, startText, endText)
  {
  }

  /** For well-dated ranges, failing all three containment tests means the day ranges are
      disjoint. */
  lemma NoOverlapMeansDisjoint(other: LeaveRow, startText: string, endText: string)
    requires WellDated(other) && ParseDate(startText).Some? && ParseDate(endText).Some?
    requires DayNumber(ParseDate(startText).value) <= DayNumber(ParseDate(endText).value)
    requires !OverlapTests(other, startText, endText)
    ensures var s, e := ParseDate(startText).value, ParseDate(endText).value;
      var os, oe := ParseDate(other.startDate).value, ParseDate(other.endDate).value;
      DayNumber(oe) < DayNumber(s) || DayNumber(e) < DayNumber(os)
  {
    DateTextIsChronological(startText, endText);
    DateTextIsChronological(other.startDate, other.endDate);
    OverlapIsIntersection(other, startText, endText);
    DateTextIsChronological(other.startDate, endText);
    DateTextIsChronological(startText, other.endDate);
  }

  /** A request created from an accepted form is well dated. */
  lemma AcceptedFormIsWellDated(leaves: seq<LeaveRow>, userId: string, sub: Submission, today: Date,
                                maxDuration: Option<int>, requestId: string, username: string, now: string)
    requires IsValidDate(today)
    requires ValidateSubmission(leaves, userId, sub, today, maxDuration).Ok?
    ensures WellDated(NewLeave(requestId, userId, username, sub.reason,
                               ValidateSubmission(leaves, userId, sub, today, maxDuration).value,
                               sub.startText, sub.endText, now))
  {
  }

  /** The review message posted for a new request: its id and its channel's id. */
  datatype ReviewPost = ReviewPost(messageId: string, channelId: string)

  /** The new row after its review message, when one was posted, is recorded on it. */
  function Posted(row: LeaveRow, review: Option<ReviewPost>): (r: LeaveRow)
    ensures IdentityOf(r) == IdentityOf(row) && r.status == row.status
    ensures review.Some? ==> r.messageId == Some(review.value.messageId)
                             && r.channelId == Some(review.value.channelId)
    ensures review.None? ==> r == row
  {
    if review.Some? then Apply(row, SetMessage(review.value.messageId, review.value.channelId)) else row
  }

  /** handleLeaveRequestSubmission: a refused form changes nothing; an accepted one creates
      exactly one pending request under a fresh id and attaches the review message to it.
      `review` is the message the review channel returned, None when that channel is absent. */
  method HandleLeaveRequestSubmission(store: Database, member: Member, config: Config, sub: Submission,
                                      today: Date, now: string, review: Option<ReviewPost>)
    returns (r: Result<string, SubmissionError>)
    requires store.Valid() && IsValidDate(today)
    modifies store
    ensures store.Valid()
    ensures var v := ValidateSubmission(old(store.leaves), member.id, sub, today,
                                        HeldLimit(member, config.roleLimits));
      && (r.Err? <==> v.Err?)
      && (r.Err? ==> r.error == v.error)
      && (r.Ok? ==> store.leaves == old(store.leaves)
                      + [Posted(NewLeave(r.value, member.id, member.username, sub.reason, v.value,
                                         sub.startText, sub.endText, now), review)])
    ensures r.Err? ==> store.leaves == old(store.leaves) && store.settings == old(store.settings)
    ensures r.Ok? ==> store.Counter() == old(store.Counter()) + 1 && r.value == FormatRequestId(store.Counter())
    ensures r.Ok? ==> forall i :: 0 <= i < |old(store.leaves)| ==> old(store.leaves)[i].requestId != r.value
    ensures store.notes == old(store.notes) && store.history == old(store.history)
  {
    var maxDuration := GetMaxLeaveDuration(member, config.roleLimits);
    var checked := ValidateSubmission(store.leaves, member.id, sub, today, maxDuration);
    if checked.Err? {
      return Err(checked.error);
    }
    var before := store.leaves;
    var requestId := store.CreateLeaveRequest(member.id, member.username, sub.reason, checked.value,
                                              sub.startText, sub.endText, now);
    var row := NewLeave(requestId, member.id, member.username, sub.reason, checked.value,
                        sub.startText, sub.endText, now);
    if review.Some? {
      UpdateFreshRow(before, row, SetMessage(review.value.messageId, review.value.channelId));
      store.UpdateLeaveMessage(requestId, review.value.messageId, review.value.channelId);
    }
    r := Ok(requestId);
  }

  // ---------------------------------------------------------------------------
  // Rejection and note forms
  // ---------------------------------------------------------------------------

  /** handleRejectionSubmission: an unknown request is refused with no change; otherwise the
      request becomes rejected by `actor` with the reason (an empty reason stored as null) and
      one history row. The status is not checked again here: whatever the request's status,
      it becomes rejected. The result is the row read back after the update. */
  method HandleRejectionSubmission(store: Database, customId: string, actor: string, reasonText: string,
                                   now: string)
    returns (r: Result<LeaveRow, Refusal>)
    requires store.Valid()
    modifies store
    ensures store.Valid()
    ensures var id := RejectionRequestId(customId);
      var found := First(old(store.leaves), IdIs(id));
      var change := SetStatus(Rejected, actor, OrNull(reasonText), now);
      && (r.Err? <==> found.None?)
      && (r.Err? ==> r.error == RequestNotFound && store.leaves == old(store.leaves)
                     && store.history == old(store.history))
      && (r.Ok? ==> && store.leaves == UpdateWhere(old(store.leaves), id, change)
                    && store.history == old(store.history) + [HistoryRow(id, Some(found.value.status),
                                                                         Rejected, actor, now)]
                    && r.value == Apply(found.value, change))
    ensures r.Ok? ==> r.value.status == Rejected && r.value.rejectionReason == OrNull(reasonText)
    ensures store.notes == old(store.notes) && store.settings == old(store.settings)
  {
    var requestId := RejectionRequestId(customId);
    var leave := store.GetLeaveRequest(requestId);
    if leave.None? {
      return Err(RequestNotFound);
    }
    var change := SetStatus(Rejected, actor, OrNull(reasonText), now);
    ReadAfterUpdate(store.leaves, requestId, change, requestId);
    var updated := store.UpdateLeaveStatus(requestId, Rejected, actor, OrNull(reasonText), now);
    r := Ok(updated.value);
  }

  /** handleNoteSubmission: an unknown request is refused with no change; otherwise exactly
      one note is appended and the request itself is untouched. */
  method HandleNoteSubmission(store: Database, customId: string, admin: Member, note: string, now: string)
    returns (r: Result<LeaveRow, Refusal>)
    requires store.Valid()
    modifies store
    ensures store.Valid()
    ensures var id := NoteRequestId(customId);
      && (r.Err? <==> First(old(store.leaves), IdIs(id)).None?)
      && (r.Err? ==> r.error == RequestNotFound && store.notes == old(store.notes))
      && (r.Ok? ==> r.value == First(old(store.leaves), IdIs(id)).value
                    && store.notes == old(store.notes) + [NoteRow(id, admin.id, admin.username, note, now)])
    ensures store.leaves == old(store.leaves) && store.history == old(store.history)
    ensures store.settings == old(store.settings)
  {
    var requestId := NoteRequestId(customId);
    var leave := store.GetLeaveRequest(requestId);
    if leave.None? {
      return Err(RequestNotFound);
    }
    var added := store.AddNote(requestId, admin.id, admin.username, note, now);
    r := Ok(leave.value);
  }
}
