/** The cancel-leave command (src/commands/cancelLeave.js): an admin cancels an approved
    leave. Whether the member is still in the guild and whether the log channel exists are
    parameters; removing the role and sending messages are left to Discord. */
module CancelLeave {
  import opened Wrappers
  import opened Text
  import opened LeaveStore
  import opened Permissions
  import opened Lifecycle
  import opened Embeds

  /** What a successful cancellation does besides the store write: whether removing the
      member's role is attempted, and the role-removed log entry when one is sent. */
  datatype Cancellation = Cancellation(cancelled: LeaveRow, roleRemovalAttempted: bool,
                                       roleRemovedLog: Option<Embed>)

  /** execute: permission, then existence, then approved; a refusal changes nothing.
      Otherwise the request becomes cancelled by the actor with one history row. Its role id
      stays recorded: it is only used to try to remove the role, which is attempted when the
      member is found and a role is recorded; a failed removal does not stop the
      cancellation. The role-removed log is sent only when a role is recorded. */
  method Execute(store: Database, actor: Member, config: Config, requestId: string,
                 memberFound: bool, logChannel: bool, now: string, nowSeconds: int)
    returns (r: Result<Cancellation, Refusal>)
    requires store.Valid()
    modifies store
    ensures store.Valid()
    ensures var found := First(old(store.leaves), IdIs(requestId));
      var gate := CheckAction(CanManageLeaves(actor, config), found, Some(Approved), OnlyApprovedCanBeCancelled);
      var change := SetStatus(Cancelled, actor.id, None, now);
      && (r.Err? <==> gate.Err?)
      && (r.Err? ==> r.error == gate.error
                     && store.leaves == old(store.leaves) && store.history == old(store.history))
      && (r.Ok? ==>
            && store.leaves == UpdateWhere(old(store.leaves), requestId, change)
            && store.history == old(store.history) + [HistoryRow(requestId, Some(Approved), Cancelled, actor.id, now)]
            && r.value.cancelled == Apply(found.value, change)
            && store.GetLeaveRequest(requestId) == Some(r.value.cancelled)
            && Allowed(found.value.status, Cancelled)
            && r.value.cancelled.roleId == found.value.roleId
            && (r.value.roleRemovalAttempted <==> memberFound && Given(found.value.roleId))
            && (r.value.roleRemovedLog.Some? <==> logChannel && Given(found.value.roleId))
            && (r.value.roleRemovedLog.Some? ==>
                  r.value.roleRemovedLog.value == RoleRemovedLog(found.value, found.value.roleId, nowSeconds)))
    ensures store.notes == old(store.notes) && store.settings == old(store.settings)
  {
    var leave := store.GetLeaveRequest(requestId);
    var gate := CheckAction(CanManageLeaves(actor, config), leave, Some(Approved), OnlyApprovedCanBeCancelled);
    if gate.Err? {
      return Err(gate.error);
    }
    var hasRole := Given(leave.value.roleId);
    var removalAttempted := memberFound && hasRole;
    var change := SetStatus(Cancelled, actor.id, None, now);
    ReadAfterUpdate(store.leaves, requestId, change, requestId);
    var updated := store.UpdateLeaveStatus(requestId, Cancelled, actor.id, None, now);
    var log := if logChannel && hasRole then Some(RoleRemovedLog(leave.value, leave.value.roleId, nowSeconds))
               else None;
    r := Ok(Cancellation(updated.value, removalAttempted, log));
  }
}
