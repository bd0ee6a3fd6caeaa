/** The life of a leave request as the handlers drive it: a new request is pending; an
    admin approves or rejects a pending request, and cancels an approved one. Every admin
    action first runs the same guards, in the same order: the permission check, then the
    lookup of the request, then (for status changes) the status the action needs. */
module Lifecycle {
  import opened Wrappers
  import opened LeaveStore

  /** The transitions the button and command guards let through. */
  predicate Allowed(from: Status, to: Status) {
    || (from == Pending && (to == Approved || to == Rejected))
    || (from == Approved && to == Cancelled)
  }

  /** Each step of the sequence is an allowed transition. */
  predicate IsRun(run: seq<Status>) {
    forall i :: 0 <= i < |run| - 1 ==> Allowed(run[i], run[i + 1])
  }

  /** No request passes through more than three statuses: rejected and cancelled are final,
      and no transition leads back to pending. */
  lemma RunsAreShort(run: seq<Status>)
    requires IsRun(run)
    ensures |run| <= 3
    ensures |run| == 3 ==> run == [Pending, Approved, Cancelled]
  {
    if |run| >= 3 {
      assert Allowed(run[0], run[1]) && Allowed(run[1], run[2]);
      assert run[2] == Cancelled;
      NothingAfterFinal(run, 2);
    }
  }

  /** A rejected or cancelled status ends the run. */
  lemma NothingAfterFinal(run: seq<Status>, i: int)
    requires IsRun(run) && 0 <= i < |run| && (run[i] == Rejected || run[i] == Cancelled)
    ensures i == |run| - 1
  {
    assert i + 1 >= |run| || Allowed(run[i], run[i + 1]);
  }

  /** Why an admin action was refused. */
  datatype Refusal = NoPermission | RequestNotFound | AlreadyProcessed | OnlyApprovedCanBeCancelled

  /** The guards of an admin action on a request: permission first, then existence, then
      (when `required` is given) the status; a wrong status is reported as `wrongStatus`. */
  function CheckAction(permitted: bool, leave: Option<LeaveRow>, required: Option<Status>,
                       wrongStatus: Refusal): (r: Result<LeaveRow, Refusal>)
    ensures r.Ok? <==> permitted && leave.Some? && (required.None? || leave.value.status == required.value)
    ensures r.Ok? ==> r.value == leave.value
    ensures !permitted ==> r == Err(NoPermission)
    ensures permitted && leave.None? ==> r == Err(RequestNotFound)
    ensures permitted && leave.Some? && r.Err? ==> r.error == wrongStatus
  {
    if !permitted then Err(NoPermission)
    else if leave.None? then Err(RequestNotFound)
    else if required.Some? && leave.value.status != required.value then Err(wrongStatus)
    else Ok(leave.value)
  }
}
