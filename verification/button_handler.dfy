/** The buttons (src/handlers/buttonHandler.js): dispatch on the custom id, the gate in front
    of the leave form, the approve guards and writes, the reject and add-note guards, and
    page turning in the my-requests list. Discord's role cache is a value: the roles are
    passed in and the (possibly extended) list is returned; the id of a role created here
    is a parameter. */
module ButtonHandler {
  import opened Wrappers
  import opened Text
  import opened LeaveStore
  import opened Permissions
  import opened Lifecycle
  import opened Embeds
  import opened ModalHandler

  const SubmitLeaveId := "submit_leave"
  const PrevMarker := "_prev_"
  const NextMarker := "_next_"
  const MyRequestsPrefix := "myrequests"

  datatype ButtonAction = SubmitLeaveAction | ApproveAction | RejectAction | AddNoteAction
                        | PaginationAction | NoAction

  /** handleButton: the first rule that matches decides. */
  function Dispatch(customId: string): (a: ButtonAction)
    ensures a == SubmitLeaveAction <==> customId == SubmitLeaveId
    ensures a == ApproveAction <==> customId != SubmitLeaveId && StartsWith(customId, ApprovePrefix)
    ensures a == RejectAction <==>
      && customId != SubmitLeaveId && !StartsWith(customId, ApprovePrefix)
      && StartsWith(customId, RejectPrefix)
    ensures a == AddNoteAction <==>
      && customId != SubmitLeaveId && !StartsWith(customId, ApprovePrefix)
      && !StartsWith(customId, RejectPrefix) && StartsWith(customId, AddNotePrefix)
    ensures a == PaginationAction <==>
      && customId != SubmitLeaveId && !StartsWith(customId, ApprovePrefix)
      && !StartsWith(customId, RejectPrefix) && !StartsWith(customId, AddNotePrefix)
      && (Contains(customId, PrevMarker) || Contains(customId, NextMarker))
    ensures a == NoAction <==>
      && customId != SubmitLeaveId && !StartsWith(customId, ApprovePrefix)
      && !StartsWith(customId, RejectPrefix) && !StartsWith(customId, AddNotePrefix)
      && !Contains(customId, PrevMarker) && !Contains(customId, NextMarker)
  {
    if customId == SubmitLeaveId then SubmitLeaveAction
    else if StartsWith(customId, ApprovePrefix) then ApproveAction
    else if StartsWith(customId, RejectPrefix) then RejectAction
    else if StartsWith(customId, AddNotePrefix) then AddNoteAction
    else if Contains(customId, PrevMarker) || Contains(customId, NextMarker) then PaginationAction
    else NoAction
  }

  /** The request id a button names: its id with the first occurrence of the prefix removed. */
  function ButtonRequestId(customId: string, prefix: string): string {
    ReplaceFirst(customId, prefix, "")
  }

  /** The three admin buttons of a request are dispatched to approve, reject and add-note,
      and each gives back the request id. */
  lemma AdminButtonsRoundTrip(requestId: string)
    ensures var b := AdminButtons(requestId);
      && Dispatch(b[0].customId) == ApproveAction
      && Dispatch(b[1].customId) == RejectAction
      && Dispatch(b[2].customId) == AddNoteAction
      && ButtonRequestId(b[0].customId, ApprovePrefix) == requestId
      && ButtonRequestId(b[1].customId, RejectPrefix) == requestId
      && ButtonRequestId(b[2].customId, AddNotePrefix) == requestId
  {
    var b := AdminButtons(requestId);
    assert b[0].customId[0] == 'a' && b[0].customId[..|ApprovePrefix|] == ApprovePrefix;
    assert SubmitLeaveId[0] == 's';
    assert b[1].customId[0] == 'r' && b[1].customId[..|RejectPrefix|] == RejectPrefix;
    assert b[2].customId[1] == 'd' && b[2].customId[..|AddNotePrefix|] == AddNotePrefix;
    ReplaceFirstPrefix(ApprovePrefix, requestId);
    ReplaceFirstPrefix(RejectPrefix, requestId);
    ReplaceFirstPrefix(AddNotePrefix, requestId);
  }

  /** The my-requests page buttons are dispatched to page turning. */
  lemma PaginationButtonsDispatch(direction: Direction, page: int)
    ensures Dispatch(PaginationId(MyRequestsPrefix, direction, page)) == PaginationAction
  {
    var id := PaginationId(MyRequestsPrefix, direction, page);
    PaginationIdHasMarker(direction, page);
    assert id[0] == 'm';
    assert id != SubmitLeaveId;
    assert !StartsWith(id, ApprovePrefix) && !StartsWith(id, RejectPrefix) && !StartsWith(id, AddNotePrefix);
  }

  lemma PaginationIdHasMarker(direction: Direction, page: int)
    ensures var id := PaginationId(MyRequestsPrefix, direction, page);
      Contains(id, PrevMarker) || Contains(id, NextMarker)
  {
    var marker := if direction == Next then NextMarker else PrevMarker;
    assert PaginationId(MyRequestsPrefix, direction, page) == MyRequestsPrefix + marker + IntToString(page);
    ContainsMiddle(MyRequestsPrefix, marker, IntToString(page));
  }

  // ---------------------------------------------------------------------------
  // The leave form gate
  // ---------------------------------------------------------------------------

  datatype GateRefusal = SystemLocked | SpamProtection(maxRequests: int)

  /** handleSubmitLeave: the lock first, then the weekly cap; a member who passes is shown
      the leave form. The count covers requests created at or after `since`, seven days
      before now. */
  function HandleSubmitLeave(store: Database, userId: string, since: string, maxRequests: int)
    : (r: Result<string, GateRefusal>)
    reads store
    ensures r.Ok? <==> !store.IsSystemLocked() && store.GetRecentRequestsCount(userId, since) < maxRequests
    ensures store.IsSystemLocked() ==> r == Err(SystemLocked)
    ensures !store.IsSystemLocked() && r.Err? ==> r.error == SpamProtection(maxRequests)
    ensures r.Ok? ==> r.value == LeaveRequestModal
  {
    if store.IsSystemLocked() then Err(SystemLocked)
    else if store.GetRecentRequestsCount(userId, since) >= maxRequests then Err(SpamProtection(maxRequests))
    else Ok(LeaveRequestModal)
  }

  /** A request created in the window counts once more toward its member's cap, and requests
      of other members or created before the window do not count; so a request made right
      after passing the gate leaves the member at most at the cap. */
  lemma NewRequestUsesOneSlot(rows: seq<LeaveRow>, row: LeaveRow, userId: string, since: string,
                              maxRequests: int)
    ensures Count(rows + [row], RecentOf(userId, since))
         == Count(rows, RecentOf(userId, since))
            + (if row.userId == userId && LexLe(since, row.createdAt) then 1 else 0)
    ensures Count(rows, RecentOf(userId, since)) < maxRequests ==>
              Count(rows + [row], RecentOf(userId, since)) <= maxRequests
  {
    WhereAppend(rows, [row], RecentOf(userId, since));
    assert Where([row], RecentOf(userId, since))
        == (if Keep(row, RecentOf(userId, since)) then [row] else []);
  }

  // ---------------------------------------------------------------------------
  // Approve
  // ---------------------------------------------------------------------------

  datatype Role = Role(id: string, name: string)

  /** The role an approved leave of `duration` days gets: the name depends on the duration
      only. */
  function LeaveRoleName(duration: int): string {
    "إجازة - " + IntToString(duration) + " أيام"
  }

  /** Different durations give different role names. */
  lemma LeaveRoleNameInjective(a: int, b: int)
    requires LeaveRoleName(a) == LeaveRoleName(b)
    ensures a == b
  {
    var p, q := "إجازة - ", " أيام";
    var x, y := IntToString(a), IntToString(b);
    assert |x| == |y|;
    assert x == LeaveRoleName(a)[|p|..|p| + |x|];
    assert y == LeaveRoleName(b)[|p|..|p| + |y|];
    IntToStringInjective(a, b);
  }

  /** `roles.cache.find(r => r.name === name)`: the first role with that name. */
  function FindRole(roles: seq<Role>, name: string): (r: Option<Role>)
    ensures r.None? <==> forall i :: 0 <= i < |roles| ==> roles[i].name != name
    ensures r.Some? ==> exists i :: 0 <= i < |roles| && roles[i] == r.value && roles[i].name == name
                                    && forall j :: 0 <= j < i ==> roles[j].name != name
    decreases |roles|
  {
    if roles == [] then None
    else if roles[0].name == name then Some(roles[0])
    else
      var rest := FindRole(roles[1..], name);
      if rest.Some? then
        var i :| 0 <= i < |roles[1..]| && roles[1..][i] == rest.value && roles[1..][i].name == name
                 && forall j :: 0 <= j < i ==> roles[1..][j].name != name;
        assert roles[i + 1] == rest.value;
        rest
      else None
  }

  /** The found role, or a new one with that name added to the guild's roles. */
  function FindOrCreateRole(roles: seq<Role>, name: string, newId: string): (r: (Role, seq<Role>))
    ensures r.0.name == name
    ensures FindRole(roles, name).Some? ==> r == (FindRole(roles, name).value, roles)
    ensures FindRole(roles, name).None? ==> r == (Role(newId, name), roles + [Role(newId, name)])
  {
    var found := FindRole(roles, name);
    if found.Some? then (found.value, roles) else (Role(newId, name), roles + [Role(newId, name)])
  }

  /** Two approvals of the same duration, one after the other, use the same role: the first
      finds or creates it, the second finds it and creates nothing. */
  lemma SameDurationSameRole(roles: seq<Role>, duration: int, firstId: string, secondId: string)
    ensures var (role1, roles1) := FindOrCreateRole(roles, LeaveRoleName(duration), firstId);
      var (role2, roles2) := FindOrCreateRole(roles1, LeaveRoleName(duration), secondId);
      role2 == role1 && roles2 == roles1
  {
    var name := LeaveRoleName(duration);
    var (role1, roles1) := FindOrCreateRole(roles, name, firstId);
    if FindRole(roles, name).None? {
      var found := FindRole(roles1, name);
      assert roles1[|roles|].name == name;
      var i :| 0 <= i < |roles1| && roles1[i] == found.value && roles1[i].name == name
               && forall j :: 0 <= j < i ==> roles1[j].name != name;
      assert i == |roles|;
    }
  }

  /** The status change an approval makes. */
  function ApproveChange(actor: string, now: string): Change {
    SetStatus(Approved, actor, None, now)
  }

  /** handleApprove: permission, then existence, then pending; a refusal changes nothing.
      Otherwise the role named after the duration is found or created, the request becomes
      approved by the actor (with one history row and the rejection reason cleared), and then
      the role id is recorded on it. */
  method HandleApprove(store: Database, roles: seq<Role>, actor: Member, config: Config,
                       customId: string, newRoleId: string, now: string)
    returns (r: Result<Role, Refusal>, rolesAfter: seq<Role>)
    requires store.Valid()
    modifies store
    ensures store.Valid()
    ensures var id := ButtonRequestId(customId, ApprovePrefix);
      var found := First(old(store.leaves), IdIs(id));
      var gate := CheckAction(CanManageLeaves(actor, config), found, Some(Pending), AlreadyProcessed);
      && (r.Err? <==> gate.Err?)
      && (r.Err? ==> r.error == gate.error && rolesAfter == roles
                     && store.leaves == old(store.leaves) && store.history == old(store.history))
      && (r.Ok? ==>
            && Allowed(found.value.status, Approved)
            && (r.value, rolesAfter) == FindOrCreateRole(roles, LeaveRoleName(found.value.duration), newRoleId)
            && store.leaves == UpdateWhere(UpdateWhere(old(store.leaves), id, ApproveChange(actor.id, now)),
                                           id, SetRole(r.value.id))
            && store.history == old(store.history) + [HistoryRow(id, Some(Pending), Approved, actor.id, now)]
            && store.GetLeaveRequest(id)
               == Some(Apply(Apply(found.value, ApproveChange(actor.id, now)), SetRole(r.value.id))))
    ensures r.Ok? ==> r.value.name == LeaveRoleName(old(store.GetLeaveRequest(ButtonRequestId(customId, ApprovePrefix))).value.duration)
    ensures store.notes == old(store.notes) && store.settings == old(store.settings)
  {
    var requestId := ButtonRequestId(customId, ApprovePrefix);
    var leave := store.GetLeaveRequest(requestId);
    var gate := CheckAction(CanManageLeaves(actor, config), leave, Some(Pending), AlreadyProcessed);
    if gate.Err? {
      return Err(gate.error), roles;
    }
    var found := FindOrCreateRole(roles, LeaveRoleName(leave.value.duration), newRoleId);
    var role := found.0;
    rolesAfter := found.1;
    var change := ApproveChange(actor.id, now);
    ReadAfterUpdate(store.leaves, requestId, change, requestId);
    var _ := store.UpdateLeaveStatus(requestId, Approved, actor.id, None, now);
    ReadAfterUpdate(store.leaves, requestId, SetRole(role.id), requestId);
    store.UpdateLeaveRole(requestId, role.id);
    r := Ok(role);
  }

  /** After an approval the request reads back approved by the actor, with no rejection
      reason, the role recorded and its identity unchanged. */
  lemma ApprovedReadBack(row: LeaveRow, actor: string, now: string, roleId: string)
    ensures var a := Apply(Apply(row, ApproveChange(actor, now)), SetRole(roleId));
      && a.status == Approved && a.processedBy == Some(actor) && a.processedAt == Some(now)
      && a.rejectionReason.None? && a.roleId == Some(roleId)
      && IdentityOf(a) == IdentityOf(row) && a.messageId == row.messageId
  {
  }

  // ---------------------------------------------------------------------------
  // Reject and add-note buttons: guards, then the form
  // ---------------------------------------------------------------------------

  /** handleReject: permission, then existence, then pending; on success the rejection form
      for the request is shown. Nothing is written. */
  function HandleRejectButton(store: Database, actor: Member, config: Config, customId: string)
    : (r: Result<string, Refusal>)
    reads store
    requires store.Valid()
    ensures var id := ButtonRequestId(customId, RejectPrefix);
      var gate := CheckAction(CanManageLeaves(actor, config), store.GetLeaveRequest(id), Some(Pending),
                              AlreadyProcessed);
      && (r.Err? <==> gate.Err?) && (r.Err? ==> r.error == gate.error)
      && (r.Ok? ==> ModalDispatch(r.value) == RejectionForm && RejectionRequestId(r.value) == id)
  {
    var requestId := ButtonRequestId(customId, RejectPrefix);
    var gate := CheckAction(CanManageLeaves(actor, config), store.GetLeaveRequest(requestId), Some(Pending),
                            AlreadyProcessed);
    if gate.Err? then Err(gate.error)
    else
      RejectionFormRoundTrip(requestId);
      Ok(RejectModalPrefix + requestId)
  }

  /** handleAddNote: permission, then existence (any status); on success the note form for
      the request is shown. Nothing is written. */
  function HandleAddNoteButton(store: Database, actor: Member, config: Config, customId: string)
    : (r: Result<string, Refusal>)
    reads store
    requires store.Valid()
    ensures var id := ButtonRequestId(customId, AddNotePrefix);
      var gate := CheckAction(CanManageLeaves(actor, config), store.GetLeaveRequest(id), None,
                              AlreadyProcessed);
      && (r.Err? <==> gate.Err?) && (r.Err? ==> r.error == gate.error)
      && (r.Ok? ==> ModalDispatch(r.value) == NoteForm && NoteRequestId(r.value) == id)
  {
    var requestId := ButtonRequestId(customId, AddNotePrefix);
    var gate := CheckAction(CanManageLeaves(actor, config), store.GetLeaveRequest(requestId), None,
                            AlreadyProcessed);
    if gate.Err? then Err(gate.error)
    else
      NoteFormRoundTrip(requestId);
      Ok(NoteModalPrefix + requestId)
  }

  /** The rejection form's id leads back to the rejection handler and the same request. */
  lemma RejectionFormRoundTrip(requestId: string)
    ensures ModalDispatch(RejectModalPrefix + requestId) == RejectionForm
    ensures RejectionRequestId(RejectModalPrefix + requestId) == requestId
  {
    var id := RejectModalPrefix + requestId;
    assert id[0] == 'r' && id[..|RejectModalPrefix|] == RejectModalPrefix;
    ReplaceFirstPrefix(RejectModalPrefix, requestId);
  }

  /** The note form's id leads back to the note handler and the same request. */
  lemma NoteFormRoundTrip(requestId: string)
    ensures ModalDispatch(NoteModalPrefix + requestId) == NoteForm
    ensures NoteRequestId(NoteModalPrefix + requestId) == requestId
  {
    var id := NoteModalPrefix + requestId;
    assert id[0] == 'n' && id[..|NoteModalPrefix|] == NoteModalPrefix;
    ReplaceFirstPrefix(NoteModalPrefix, requestId);
  }

  // ---------------------------------------------------------------------------
  // Page turning
  // ---------------------------------------------------------------------------

  /** What handlePagination reads off a button id: the prefix and the page to show, None
      when the page part is missing or not a number (`parseInt` gives NaN). */
  datatype PageTurn = PageTurn(prefix: string, newPage: Option<int>)

  /** Split on '_': the first part is the prefix, the second the direction and the third the
      current page; "next" goes one page on, anything else one page back. */
  function DecodePageTurn(customId: string): (t: PageTurn)
    ensures t.prefix == Split(customId, '_')[0]
  {
    var parts := Split(customId, '_');
    var current := if |parts| > 2 then ParseInt(parts[2]) else None;
    var forward := |parts| > 1 && parts[1] == "next";
    PageTurn(parts[0], if current.Some? then Some(if forward then current.value + 1 else current.value - 1)
                       else None)
  }

  /** Decoding a pagination button built by createPaginationButtons gives the page after or
      before the one it was built for. */
  lemma PageTurnRoundTrip(prefix: string, direction: Direction, page: int)
    requires '_' !in prefix
    ensures DecodePageTurn(PaginationId(prefix, direction, page))
         == PageTurn(prefix, Some(if direction == Next then page + 1 else page - 1))
  {
    PaginationIdSplits(prefix, direction, page);
    ParseIntOfIntToString(page);
    DecodeThreeParts(PaginationId(prefix, direction, page), prefix, direction.Token(), IntToString(page), page);
  }

  /** An id that splits into a prefix, a direction word and a page number. */
  lemma DecodeThreeParts(customId: string, prefix: string, token: string, pageText: string, page: int)
    requires Split(customId, '_') == [prefix, token, pageText]
    requires ParseInt(pageText) == Some(page)
    ensures DecodePageTurn(customId) == PageTurn(prefix, Some(if token == "next" then page + 1 else page - 1))
  {
  }

  /** The updated my-requests message: the list and the page buttons. */
  datatype PageView = PageView(embed: Embed, buttons: seq<Button>)

  /** handlePagination: only the my-requests prefix is acted on; the member's page of five
      requests is shown, with the page buttons only when there is more than one page. */
  method HandlePagination(store: Database, userId: string, customId: string) returns (view: Option<PageView>)
    ensures var t := DecodePageTurn(customId);
      && (view.Some? <==> t.prefix == MyRequestsPrefix && t.newPage.Some?)
      && (view.Some? ==>
            var result := store.GetUserLeaves(userId, t.newPage.value, 5);
            && |view.value.embed.fields| == |result.leaves|
            && (forall i :: 0 <= i < |result.leaves| ==>
                  view.value.embed.fields[i] == MyRequestsField(result.leaves[i]))
            && view.value.buttons
               == (if result.pages > 1 then PaginationButtons(t.newPage.value, result.pages, MyRequestsPrefix)
                   else []))
  {
    var turn := DecodePageTurn(customId);
    if turn.prefix != MyRequestsPrefix || turn.newPage.None? {
      return None;
    }
    var result := store.GetUserLeaves(userId, turn.newPage.value, 5);
    var embed := MyRequestsEmbed(result.leaves, turn.newPage.value, result.pages);
    var buttons := PaginationButtons(turn.newPage.value, result.pages, MyRequestsPrefix);
    view := Some(PageView(embed, if result.pages > 1 then buttons else []));
  }
}
