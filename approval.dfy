/**
 * The Approve, Deny and Thread buttons of `ui/buttons.py`
 * (`LeaveApprovalView`) over the request list. The buttons as written store
 * the new status before they check who pressed them; `RespondAsWritten`
 * models that order, and `Respond` the order the refusal messages promise,
 * where a refused press changes nothing.
 */
module Approval {
  import opened Wrappers
  import opened PendingRequests
  import opened Hierarchy

  /** Which button was pressed. */
  datatype Decision = Approve | Deny

  /** The status a button writes: "approved" or "denied". */
  function StatusOf(d: Decision): (s: Status)
    ensures s == Approved <==> d == Approve
    ensures s == Denied <==> d == Deny
  {
    match d
    case Approve => Approved
    case Deny => Denied
  }

  /** What the press comes to. */
  datatype ButtonOutcome =
    | NoLongerExists
    | Refused(reason: Permission)
    | Handled(request: LeaveRequest)

  /**
   * `approve_button_callback` / `deny_button_callback` as written: the status,
   * approver and update time are stored first; only then are the permissions
   * of the presser checked, and a refusal does not undo the write.
   */
  method RespondAsWritten(store: RequestStore, id: string, decision: Decision, actorId: nat, actorRoles: seq<string>,
                          directory: map<nat, seq<string>>, now: int) returns (outcome: ButtonOutcome)
    modifies store
    ensures store.requests == UpdatedList(old(store.requests), id, StatusOf(decision), actorId, now)
    ensures FirstWithId(old(store.requests), id).None? ==> outcome == NoLongerExists
    ensures FirstWithId(old(store.requests), id).Some? ==>
      var k := FirstWithId(old(store.requests), id).value;
      var p := CheckPermissions(actorId, actorRoles, old(store.requests)[k].memberId, directory);
      outcome == (if p == Allowed then Handled(store.requests[k]) else Refused(p))
  {
    var updated := store.UpdatePendingRequest(id, StatusOf(decision), actorId, now);
    if updated.None? {
      return NoLongerExists;
    }
    var p := CheckPermissions(actorId, actorRoles, updated.value.memberId, directory);
    if p != Allowed {
      return Refused(p);
    }
    return Handled(updated.value);
  }

  /**
   * The write-before-check order lets a member approve their own request:
   * the press is refused as a self-action, yet the stored request is
   * approved, with the requester as its approver.
   */
  lemma SelfApprovalIsStored(requests: seq<LeaveRequest>, id: string, directory: map<nat, seq<string>>, roles: seq<string>, now: int)
    requires FirstWithId(requests, id).Some?
    ensures var k := FirstWithId(requests, id).value;
      var requester := requests[k].memberId;
      var after := UpdatedList(requests, id, StatusOf(Approve), requester, now);
      CheckPermissions(requester, roles, requester, directory) == SelfAction
      && after[k].status == Approved && after[k].approverId == Some(requester)
  {
    var k := FirstWithId(requests, id).value;
    UpdateChangesFirstMatchOnly(requests, id, StatusOf(Approve), requests[k].memberId, now);
  }

  /** One concrete pending request, approved by its own requester. */
  lemma SelfApprovalExample()
    ensures var r := LeaveRequest("r1", Medical, 7, "01-01-2030", "02-01-2030", "flu", Some("day-off"), Pending, None, Some(0), None);
      CheckPermissions(7, ["Trainee Member"], 7, map[7 := ["Trainee Member"]]) == SelfAction
      && UpdatedList([r], "r1", Approved, 7, 1)[0].status == Approved
  {
    var r := LeaveRequest("r1", Medical, 7, "01-01-2030", "02-01-2030", "flu", Some("day-off"), Pending, None, Some(0), None);
    assert FirstWithId([r], "r1") == Some(0);
    UpdateChangesFirstMatchOnly([r], "r1", Approved, 7, 1);
  }

  /**
   * The buttons with the check first: the request is looked up, the presser's
   * permissions are checked against its requester, and only an allowed press
   * writes the status; every refused press leaves the list as it was.
   */
  method Respond(store: RequestStore, id: string, decision: Decision, actorId: nat, actorRoles: seq<string>,
                 directory: map<nat, seq<string>>, now: int) returns (outcome: ButtonOutcome)
    modifies store
    ensures FirstWithId(old(store.requests), id).None? ==> outcome == NoLongerExists && store.requests == old(store.requests)
    ensures FirstWithId(old(store.requests), id).Some? ==>
      var k := FirstWithId(old(store.requests), id).value;
      var p := CheckPermissions(actorId, actorRoles, old(store.requests)[k].memberId, directory);
      if p == Allowed then
        store.requests == UpdatedList(old(store.requests), id, StatusOf(decision), actorId, now)
        && outcome == Handled(store.requests[k])
      else
        store.requests == old(store.requests) && outcome == Refused(p)
  {
    var found := store.FindPendingRequest(id);
    if found.None? {
      return NoLongerExists;
    }
    ghost var k :| 0 <= k < |store.requests| && found.value == store.requests[k]
                   && forall j :: 0 <= j < k ==> store.requests[j].requestId != id;
    assert FirstWithId(store.requests, id) == Some(k);
    var p := CheckPermissions(actorId, actorRoles, found.value.memberId, directory);
    if p != Allowed {
      return Refused(p);
    }
    var updated := store.UpdatePendingRequest(id, StatusOf(decision), actorId, now);
    return Handled(updated.value);
  }

  /**
   * With the check first, a stored decision always has an approver who
   * outranks the requester: nobody settles their own request, and nobody
   * settles the request of a member at their own level or above.
   */
  lemma RespondNeedsHigherLevel(requests: seq<LeaveRequest>, id: string, actorId: nat, actorRoles: seq<string>,
                                directory: map<nat, seq<string>>)
    requires FirstWithId(requests, id).Some?
    requires CheckPermissions(actorId, actorRoles, requests[FirstWithId(requests, id).value].memberId, directory) == Allowed
    ensures var requester := requests[FirstWithId(requests, id).value].memberId;
      actorId != requester && requester in directory && MaxLevel(actorRoles) > MaxLevel(directory[requester])
  {
  }

  /** What the Thread button comes to. */
  datatype ThreadOutcome = ThreadNoRequest | ThreadNoRequester | ThreadWith(requesterId: nat)

  /**
   * `create_thread_button_callback`: the request must still exist and its
   * requester must be in the guild; the thread then includes the requester.
   */
  method OpenThread(store: RequestStore, id: string, directory: map<nat, seq<string>>) returns (outcome: ThreadOutcome)
    ensures outcome == ThreadNoRequest <==> FirstWithId(store.requests, id).None?
    ensures outcome.ThreadWith? ==>
      (outcome.requesterId in directory && outcome.requesterId == store.requests[FirstWithId(store.requests, id).value].memberId)
    ensures outcome == ThreadNoRequester ==> store.requests[FirstWithId(store.requests, id).value].memberId !in directory
  {
    var found := store.FindPendingRequest(id);
    if found.None? {
      return ThreadNoRequest;
    }
    ghost var k :| 0 <= k < |store.requests| && found.value == store.requests[k]
                   && forall j :: 0 <= j < k ==> store.requests[j].requestId != id;
    assert FirstWithId(store.requests, id) == Some(k);
    if found.value.memberId !in directory {
      return ThreadNoRequester;
    }
    return ThreadWith(found.value.memberId);
  }
}
