/** The legacy interaction handler (`events/interactionCreate.js`): the buttons of the
    request panel and of the review message, the checks on a submitted form, and the
    accept and reject paths over the legacy store. Sending messages, direct messages and
    embeds are left to the Discord library and are not part of this model; the id of the
    review message a send produced is an input. */
module LegacyInteractions {
  import opened Wrappers
  import opened Text
  import opened Dates
  import opened JsNumber
  import opened LegacyDatabase
  import opened LegacyUtils
  import ButtonHandler

  const SubmitButtonId: string := "submit_leave_request"
  const AcceptPrefix: string := "accept_leave_"
  const RejectPrefix: string := "reject_leave_"

  // ---------------------------------------------------------------------------
  // Buttons
  // ---------------------------------------------------------------------------

  datatype ButtonAction = ShowLeaveModal | Accept | Reject | Ignore

  /** The three independent tests of the button handler; at most one of them can hold. */
  function ButtonDispatch(customId: string): (a: ButtonAction)
    ensures a == ShowLeaveModal <==> customId == SubmitButtonId
    ensures a == Accept <==> StartsWith(customId, AcceptPrefix)
    ensures a == Reject <==> StartsWith(customId, RejectPrefix)
  {
    assert StartsWith(customId, AcceptPrefix) ==> customId[0] == 'a';
    assert StartsWith(customId, RejectPrefix) ==> customId[0] == 'r';
    assert customId == SubmitButtonId ==> customId[0] == 's';
    if customId == SubmitButtonId then ShowLeaveModal
    else if StartsWith(customId, AcceptPrefix) then Accept
    else if StartsWith(customId, RejectPrefix) then Reject
    else Ignore
  }

  /** The ids of the accept and reject buttons under a new review message. */
  function AcceptButtonId(userId: string, now: string): string { AcceptPrefix + userId + "_" + now }
  function RejectButtonId(userId: string, now: string): string { RejectPrefix + userId + "_" + now }

  /** Each review button reaches its own path. */
  lemma ReviewButtonsDispatch(userId: string, now: string)
    ensures ButtonDispatch(AcceptButtonId(userId, now)) == Accept
    ensures ButtonDispatch(RejectButtonId(userId, now)) == Reject
  {
    var accept, reject := AcceptButtonId(userId, now), RejectButtonId(userId, now);
    assert accept == AcceptPrefix + (userId + "_" + now);
    assert reject == RejectPrefix + (userId + "_" + now);
    assert accept[..|AcceptPrefix|] == AcceptPrefix;
    assert reject[..|RejectPrefix|] == RejectPrefix;
  }

  // ---------------------------------------------------------------------------
  // The submitted form
  // ---------------------------------------------------------------------------

  /** Why a submission was turned away. */
  datatype SubmissionRefusal =
    | NotPositiveInteger
    | InvalidDateFormat
    | EndNotAfterStart
    | NoManagementChannel
    | SendFailed

  /** The duration as the code stores it: `parseInt(duration)`, NaN as None. */
  function StoredDurationAsWritten(duration: string): (r: Option<int>)
    ensures r.Some? <==> ParseInt(duration).Some?
  {
    ParseInt(duration)
  }

  /** "1e2" passes the positive-integer check as one hundred, but parseInt stores 1. */
  lemma ExponentDurationMisread()
    ensures IsPositiveInteger("1e2")
    ensures IntegerValue(NumberOf("1e2")) == Some(100)
    ensures StoredDurationAsWritten("1e2") == Some(1)
  {
    var s := "1e2";
    assert TrimStart(s) == s && TrimEnd(s) == s;
    assert ExpMarker(s) == 1;
    assert s[..1] == "1" && s[2..] == "2";
    assert Exponent("2") == Some(2) by {
      assert RadixValue("2", 10) == 2 by { assert "2"[..0] == ""; }
    }
    assert RadixValue("1", 10) == 1 by { assert "1"[..0] == ""; }
    assert '.' !in "1";
    assert "1"[..1] == "1" && "1" + "" == "1";
    assert NumberOf(s) == Finite(false, 1, 2);
    assert Pow10(2) == 100;
    assert DigitRun(s, 10) == 1 by { assert !IsRadixDigit(s[1], 10); }
    assert s[..1] == "1";
  }

  /** The duration the check accepted: the whole number `Number(duration)` denotes. */
  function SubmittedDuration(duration: string): (r: Option<int>)
    ensures r.Some? <==> IsPositiveInteger(duration)
    ensures r.Some? ==> r.value > 0 && r == IntegerValue(NumberOf(duration))
  {
    PositiveIntegerMeaning(duration);
    if IsPositiveInteger(duration) then IntegerValue(NumberOf(duration)) else None
  }

  /** For a duration typed the usual way both readings agree. */
  lemma DurationReadingsAgree(n: nat)
    requires n > 0
    ensures SubmittedDuration(NatToString(n)) == Some(n)
    ensures StoredDurationAsWritten(NatToString(n)) == Some(n)
  {
    CanonicalTextIsPositiveInteger(n);
    ParseIntOfIntToString(n);
  }

  /** The checks on the form, in order: the duration, then both dates, then the end strictly
      after the start. The duration is not compared with the dates. */
  function ValidateLegacySubmission(duration: string, startDate: string, endDate: string)
    : (r: Result<int, SubmissionRefusal>)
    ensures r == Err(NotPositiveInteger) <==> !IsPositiveInteger(duration)
    ensures IsPositiveInteger(duration) ==>
              (r == Err(InvalidDateFormat) <==> !IsValidDateFormat(startDate) || !IsValidDateFormat(endDate))
    ensures r.Ok? <==> && IsPositiveInteger(duration)
                       && IsValidDateFormat(startDate) && IsValidDateFormat(endDate)
                       && DayNumber(ParseDate(startDate).value) < DayNumber(ParseDate(endDate).value)
    ensures r.Err? ==> r.error in {NotPositiveInteger, InvalidDateFormat, EndNotAfterStart}
    ensures r.Ok? ==> Some(r.value) == SubmittedDuration(duration) && r.value > 0
  {
    if !IsPositiveInteger(duration) then Err(NotPositiveInteger)
    else if !IsValidDateFormat(startDate) || !IsValidDateFormat(endDate) then Err(InvalidDateFormat)
    else if DayNumber(ParseDate(endDate).value) <= DayNumber(ParseDate(startDate).value) then Err(EndNotAfterStart)
    else Ok(SubmittedDuration(duration).value)
  }

  /** A leave that starts and ends on the same day is refused; an accepted form's end date
      comes after its start date in text order too. */
  lemma SameDayRefused(duration: string, startDate: string, endDate: string)
    ensures startDate == endDate ==> ValidateLegacySubmission(duration, startDate, endDate).Err?
    ensures ValidateLegacySubmission(duration, startDate, endDate).Ok? ==> LexLess(startDate, endDate)
  {
    if ValidateLegacySubmission(duration, startDate, endDate).Ok? {
      DateTextIsChronological(startDate, endDate);
    }
  }

  /** `processLeaveRequest`: the checks, then the management channel, then the review
      message; only after that message exists is the record added, carrying its id.
      `sentMessageId` is None when sending failed. */
  method ProcessLeaveRequest(db: DatabaseManager, userId: string, username: string, reason: string,
                             duration: string, startDate: string, endDate: string,
                             channelFound: bool, sentMessageId: Option<string>, id: string, now: string)
    returns (r: Result<Request, SubmissionRefusal>)
    modifies db.requests
    ensures var checked := ValidateLegacySubmission(duration, startDate, endDate);
      && (r.Ok? <==> checked.Ok? && channelFound && sentMessageId.Some?)
      && (checked.Err? ==> r == Err(checked.error))
      && (checked.Ok? && !channelFound ==> r == Err(NoManagementChannel))
      && (checked.Ok? && channelFound && sentMessageId.None? ==> r == Err(SendFailed))
      && (r.Err? ==> db.requests.items == old(db.requests.items))
      && (r.Ok? ==> && db.requests.items == old(db.requests.items) + [r.value]
                    && r.value == NewRequest(RequestData(userId, username, reason, checked.value,
                                                         startDate, endDate, sentMessageId), id, now))
  {
    var checked := ValidateLegacySubmission(duration, startDate, endDate);
    if checked.Err? {
      return Err(checked.error);
    }
    if !channelFound {
      return Err(NoManagementChannel);
    }
    if sentMessageId.None? {
      return Err(SendFailed);
    }
    var request := db.AddRequest(RequestData(userId, username, reason, checked.value, startDate,
                                             endDate, sentMessageId), id, now);
    r := Ok(request);
  }

  // ---------------------------------------------------------------------------
  // Accept and reject
  // ---------------------------------------------------------------------------

  /** Why a review was turned away, or failed after the guards. */
  datatype ReviewRefusal = RequestNotFound | AlreadyProcessed(status: string) | MemberUnavailable

  /** The guards of both review paths: the record of the review message must exist and still
      be pending. */
  function ReviewGuard(found: Option<Request>): (r: Result<Request, ReviewRefusal>)
    ensures r.Ok? <==> found.Some? && found.value.status == PendingStatus
    ensures r.Ok? ==> r.value == found.value
    ensures found.None? ==> r == Err(RequestNotFound)
    ensures found.Some? && r.Err? ==> r == Err(AlreadyProcessed(found.value.status))
  {
    if found.None? then Err(RequestNotFound)
    else if found.value.status != PendingStatus then Err(AlreadyProcessed(found.value.status))
    else Ok(found.value)
  }

  const DayWord: string := "يوم"
  const DaysWord: string := "أيام"

  /** The role an accepted leave gets: `إجازة - <duration> يوم` for one day, `أيام` otherwise. */
  function LegacyRoleName(duration: int): (name: string)
    ensures duration == 1 ==> name == "إجازة - " + "1" + " " + DayWord
    ensures duration != 1 ==> name == "إجازة - " + IntToString(duration) + " " + DaysWord
  {
    "إجازة - " + IntToString(duration) + " " + (if duration == 1 then DayWord else DaysWord)
  }

  /** Text without spaces, then a space: the part before the space is fixed by the whole. */
  lemma SpaceSeparated(x: string, u: string, y: string, v: string)
    requires ' ' !in x && ' ' !in y && x + " " + u == y + " " + v
    ensures x == y
  {
    var s := x + " " + u;
    assert s[|x|] == ' ' && s[|y|] == ' ';
    assert forall i :: 0 <= i < |x| ==> s[i] == x[i] && s[i] != ' ';
    assert forall i :: 0 <= i < |y| ==> s[i] == y[i] && s[i] != ' ';
    assert x == s[..|x|] && y == s[..|y|];
  }

  lemma IntToStringHasNoSpace(i: int)
    ensures ' ' !in IntToString(i)
  {
    var m: nat := if i < 0 then -i else i;
    var digits := NatToString(m);
    assert forall k :: 0 <= k < |digits| ==> digits[k] != ' ' by {
      forall k | 0 <= k < |digits| ensures digits[k] != ' ' { assert IsDigit(digits[k]); }
    }
  }

  /** Leaves of different durations never share a role. */
  lemma LegacyRoleNameInjective(a: int, b: int)
    requires LegacyRoleName(a) == LegacyRoleName(b)
    ensures a == b
  {
    var prefix := "إجازة - ";
    var ua := if a == 1 then DayWord else DaysWord;
    var ub := if b == 1 then DayWord else DaysWord;
    assert LegacyRoleName(a) == prefix + (IntToString(a) + " " + ua);
    assert LegacyRoleName(b) == prefix + (IntToString(b) + " " + ub);
    assert IntToString(a) + " " + ua == IntToString(b) + " " + ub by {
      assert LegacyRoleName(a)[|prefix|..] == IntToString(a) + " " + ua;
      assert LegacyRoleName(b)[|prefix|..] == IntToString(b) + " " + ub;
    }
    IntToStringHasNoSpace(a);
    IntToStringHasNoSpace(b);
    SpaceSeparated(IntToString(a), ua, IntToString(b), ub);
    IntToStringInjective(a, b);
  }

  /** `acceptLeaveRequest`: guards, then the role of that duration (found by name or created),
      then the member; only when the member is there is the status written, by the record's
      id, as accepted with the role name. */
  method AcceptLeaveRequest(db: DatabaseManager, roles: seq<ButtonHandler.Role>, messageId: string,
                            newRoleId: string, memberFound: bool, now: string)
    returns (r: Result<string, ReviewRefusal>, rolesAfter: seq<ButtonHandler.Role>)
    modifies db.requests
    ensures var guard := ReviewGuard(old(db.GetRequestByManagementMessage(messageId)));
      && (guard.Err? ==> r == Err(guard.error) && rolesAfter == roles)
      && (guard.Ok? ==> rolesAfter == ButtonHandler.FindOrCreateRole(roles, LegacyRoleName(guard.value.duration), newRoleId).1)
      && (r.Ok? <==> guard.Ok? && memberFound)
      && (guard.Ok? && !memberFound ==> r == Err(MemberUnavailable))
      && (r.Err? ==> db.requests.items == old(db.requests.items))
      && (r.Ok? ==>
            var i := FirstIndex(old(db.requests.items), HasId(guard.value.id));
            && r.value == LegacyRoleName(guard.value.duration)
            && i < |old(db.requests.items)|
            && db.requests.items == old(db.requests.items)[i := StatusSet(old(db.requests.items)[i], AcceptedStatus, Some(r.value), now)])
  {
    var guard := ReviewGuard(db.GetRequestByManagementMessage(messageId));
    if guard.Err? {
      return Err(guard.error), roles;
    }
    var request := guard.value;
    var roleName := LegacyRoleName(request.duration);
    var created := ButtonHandler.FindOrCreateRole(roles, roleName, newRoleId);
    rolesAfter := created.1;
    if !memberFound {
      return Err(MemberUnavailable), rolesAfter;
    }
    var updated := db.UpdateRequestStatus(request.id, AcceptedStatus, Some(roleName), now);
    r := Ok(roleName);
  }

  const RejectRoleName: string := "لم تُقبل إجازته"

  /** First role with the id (`roles.cache.get`). */
  function RoleById(roles: seq<ButtonHandler.Role>, id: string): (r: Option<ButtonHandler.Role>)
    ensures r.Some? ==> r.value in roles && r.value.id == id
    ensures r.None? ==> forall k :: 0 <= k < |roles| ==> roles[k].id != id
    decreases |roles|
  {
    if roles == [] then None else if roles[0].id == id then Some(roles[0]) else RoleById(roles[1..], id)
  }

  /** The role a rejection gives: the one named for rejections, else the configured one,
      else a new role with that name. Only the last case adds a role. */
  function RejectRole(roles: seq<ButtonHandler.Role>, configured: Option<string>, newRoleId: string)
    : (r: (ButtonHandler.Role, seq<ButtonHandler.Role>))
    ensures r.0 in r.1
    ensures ButtonHandler.FindRole(roles, RejectRoleName).Some? ==> r == (ButtonHandler.FindRole(roles, RejectRoleName).value, roles)
    ensures ButtonHandler.FindRole(roles, RejectRoleName).None? && Given(configured) ==>
              RoleById(roles, configured.value).Some? ==> r == (RoleById(roles, configured.value).value, roles)
    ensures r.1 == roles || r.1 == roles + [ButtonHandler.Role(newRoleId, RejectRoleName)]
    ensures ButtonHandler.FindRole(roles, RejectRoleName).None?
            && (!Given(configured) || RoleById(roles, configured.value).None?) ==>
              r == (ButtonHandler.Role(newRoleId, RejectRoleName), roles + [ButtonHandler.Role(newRoleId, RejectRoleName)])
  {
    var byName := ButtonHandler.FindRole(roles, RejectRoleName);
    if byName.Some? then (byName.value, roles)
    else
      var byId := if Given(configured) then RoleById(roles, configured.value) else None;
      if byId.Some? then (byId.value, roles)
      else
        var role := ButtonHandler.Role(newRoleId, RejectRoleName);
        (role, roles + [role])
  }

  /** `rejectLeaveRequest`: the same guards, then the rejection role, then the member; the
      status is written as rejected with the rejection role's name, whichever role was used. */
  method RejectLeaveRequest(db: DatabaseManager, roles: seq<ButtonHandler.Role>, configured: Option<string>,
                            messageId: string, newRoleId: string, memberFound: bool, now: string)
    returns (r: Result<ButtonHandler.Role, ReviewRefusal>, rolesAfter: seq<ButtonHandler.Role>)
    modifies db.requests
    ensures var guard := ReviewGuard(old(db.GetRequestByManagementMessage(messageId)));
      && (guard.Err? ==> r == Err(guard.error) && rolesAfter == roles)
      && (guard.Ok? ==> rolesAfter == RejectRole(roles, configured, newRoleId).1)
      && (r.Ok? <==> guard.Ok? && memberFound)
      && (guard.Ok? && !memberFound ==> r == Err(MemberUnavailable))
      && (r.Err? ==> db.requests.items == old(db.requests.items))
      && (r.Ok? ==>
            var i := FirstIndex(old(db.requests.items), HasId(guard.value.id));
            && r.value == RejectRole(roles, configured, newRoleId).0
            && i < |old(db.requests.items)|
            && db.requests.items == old(db.requests.items)[i := StatusSet(old(db.requests.items)[i], RejectedStatus, Some(RejectRoleName), now)])
  {
    var guard := ReviewGuard(db.GetRequestByManagementMessage(messageId));
    if guard.Err? {
      return Err(guard.error), roles;
    }
    var request := guard.value;
    var chosen := RejectRole(roles, configured, newRoleId);
    rolesAfter := chosen.1;
    if !memberFound {
      return Err(MemberUnavailable), rolesAfter;
    }
    var updated := db.UpdateRequestStatus(request.id, RejectedStatus, Some(RejectRoleName), now);
    r := Ok(chosen.0);
  }

  /** A record that has been accepted or rejected is refused by both review paths from then
      on: the guards let a record through once. */
  lemma ReviewedOnce(request: Request, status: string, role: Option<string>, now: string)
    requires status == AcceptedStatus || status == RejectedStatus
    ensures ReviewGuard(Some(StatusSet(request, status, role, now))) == Err(AlreadyProcessed(status))
  {
  }
}
