/**
 * The leave-request list of `core/user_stats.py` (the `pending.json`
 * document): medical and special requests, found and updated by request id
 * and pruned by age. Timestamps are microseconds; a `created_at` that
 * `datetime.fromisoformat` cannot read (or a missing one) is `None`.
 */
module PendingRequests {
  import opened Wrappers

  const MicrosPerDay := 86_400_000_000

  datatype LeaveKind = Medical | Special

  /** The `status` field: "pending", "approved", "denied" or "auto-approved". */
  datatype Status = Pending | Approved | Denied | AutoApproved

  datatype LeaveRequest = LeaveRequest(
    requestId: string,
    kind: LeaveKind,
    memberId: nat,
    start: string,
    end: string,
    reason: string,
    mode: Option<string>,
    status: Status,
    approverId: Option<nat>,
    createdAt: Option<int>,
    updatedAt: Option<int>)

  /** Index of the first request with id `id`. */
  function FirstWithId(requests: seq<LeaveRequest>, id: string): (r: Option<nat>)
    ensures r.Some? ==> r.value < |requests| && requests[r.value].requestId == id
                        && forall j :: 0 <= j < r.value ==> requests[j].requestId != id
    ensures r.None? ==> forall j :: 0 <= j < |requests| ==> requests[j].requestId != id
  {
    if requests == [] then None
    else if requests[0].requestId == id then Some(0)
    else
      var r := FirstWithId(requests[1..], id);
      if r.None? then None else Some(r.value + 1)
  }

  /** The list after `update_pending_request(id, status, approver)` at time `now`. */
  function UpdatedList(requests: seq<LeaveRequest>, id: string, status: Status, approver: nat, now: int): seq<LeaveRequest> {
    match FirstWithId(requests, id)
    case None => requests
    case Some(k) => requests[k := requests[k].(status := status, approverId := Some(approver), updatedAt := Some(now))]
  }

  /**
   * Only the first request with the id changes, and only in status, approver
   * and update time, whatever its previous status; every other request and
   * the order stay as they were.
   */
  lemma UpdateChangesFirstMatchOnly(requests: seq<LeaveRequest>, id: string, status: Status, approver: nat, now: int)
    ensures |UpdatedList(requests, id, status, approver, now)| == |requests|
    ensures forall j :: 0 <= j < |requests| && FirstWithId(requests, id) != Some(j) ==>
              UpdatedList(requests, id, status, approver, now)[j] == requests[j]
    ensures FirstWithId(requests, id).Some? ==>
              var k := FirstWithId(requests, id).value;
              var u := UpdatedList(requests, id, status, approver, now)[k];
              u.status == status && u.approverId == Some(approver) && u.updatedAt == Some(now)
              && u == requests[k].(status := status, approverId := Some(approver), updatedAt := Some(now))
  {
  }

  /** A request survives cleanup when created after the cutoff or with an unreadable creation time. */
  predicate Survives(r: LeaveRequest, cutoff: int) {
    r.createdAt.None? || r.createdAt.value > cutoff
  }

  /** The requests kept by `cleanup_old_pending_requests`, in their order. */
  function Kept(requests: seq<LeaveRequest>, cutoff: int): (kept: seq<LeaveRequest>)
    ensures |kept| <= |requests|
    ensures forall r :: r in kept <==> r in requests && Survives(r, cutoff)
  {
    if requests == [] then []
    else
      var init := Kept(requests[..|requests| - 1], cutoff);
      var last := requests[|requests| - 1];
      assert forall r :: r in requests <==> r in requests[..|requests| - 1] || r == last;
      if Survives(last, cutoff) then init + [last] else init
  }

  /** Cleaning twice with the same cutoff removes nothing the second time. */
  lemma {:induction false} KeptIdempotent(requests: seq<LeaveRequest>, cutoff: int)
    ensures Kept(Kept(requests, cutoff), cutoff) == Kept(requests, cutoff)
  {
    if requests != [] {
      var init := requests[..|requests| - 1];
      KeptIdempotent(init, cutoff);
      var k := Kept(init, cutoff);
      var last := requests[|requests| - 1];
      if Survives(last, cutoff) {
        assert (k + [last])[..|k + [last]| - 1] == k;
      }
    }
  }

  /** Nothing is removed exactly when every request survives. */
  lemma {:induction false} KeptAll(requests: seq<LeaveRequest>, cutoff: int)
    ensures |Kept(requests, cutoff)| == |requests| <==> forall i :: 0 <= i < |requests| ==> Survives(requests[i], cutoff)
  {
    if requests != [] {
      var init := requests[..|requests| - 1];
      KeptAll(init, cutoff);
      assert forall i :: 0 <= i < |init| ==> init[i] == requests[i];
    }
  }

  /** The in-memory `pending.json`. */
  class RequestStore {
    var requests: seq<LeaveRequest>

    constructor (initial: seq<LeaveRequest>)
      ensures requests == initial
    {
      requests := initial;
    }

    /** `find_pending_request`: the first request with the id, if any. */
    method FindPendingRequest(id: string) returns (found: Option<LeaveRequest>)
      ensures found.Some? ==> found.value in requests && found.value.requestId == id
      ensures found.None? <==> forall j :: 0 <= j < |requests| ==> requests[j].requestId != id
      ensures found.Some? ==> exists k :: 0 <= k < |requests| && found.value == requests[k]
                                && forall j :: 0 <= j < k ==> requests[j].requestId != id
    {
      var i := 0;
      while i < |requests|
        invariant 0 <= i <= |requests|
        invariant forall j :: 0 <= j < i ==> requests[j].requestId != id
      {
        if requests[i].requestId == id {
          return Some(requests[i]);
        }
        i := i + 1;
      }
      return None;
    }

    /**
     * `update_pending_request`: sets status, approver and update time of the
     * first request with the id and returns it; with no such request nothing
     * is written and `None` comes back.
     */
    method UpdatePendingRequest(id: string, status: Status, approver: nat, now: int) returns (updated: Option<LeaveRequest>)
      modifies this
      ensures requests == UpdatedList(old(requests), id, status, approver, now)
      ensures updated.None? <==> FirstWithId(old(requests), id).None?
      ensures updated.Some? ==> updated.value == requests[FirstWithId(old(requests), id).value]
    {
      var i := 0;
      while i < |requests|
        invariant 0 <= i <= |requests|
        invariant requests == old(requests)
        invariant forall j :: 0 <= j < i ==> requests[j].requestId != id
      {
        if requests[i].requestId == id {
          assert FirstWithId(requests, id) == Some(i);
          requests := requests[i := requests[i].(status := status, approverId := Some(approver), updatedAt := Some(now))];
          return Some(requests[i]);
        }
        i := i + 1;
      }
      return None;
    }

    /**
     * `cleanup_old_pending_requests(days_old)` at time `now`: keeps the
     * requests created after `now - days_old` days or with an unreadable
     * creation time, and returns how many were dropped.
     */
    method CleanupOldPendingRequests(daysOld: int, now: int) returns (removed: nat)
      modifies this
      ensures requests == Kept(old(requests), now - daysOld * MicrosPerDay)
      ensures removed == |old(requests)| - |requests|
    {
      var cutoff := now - daysOld * MicrosPerDay;
      var cleaned: seq<LeaveRequest> := [];
      var i := 0;
      while i < |requests|
        invariant 0 <= i <= |requests|
        invariant cleaned == Kept(requests[..i], cutoff)
      {
        assert requests[..i + 1][..i] == requests[..i];
        var r := requests[i];
        if r.createdAt.None? || r.createdAt.value > cutoff {
          cleaned := cleaned + [r];
        }
        i := i + 1;
      }
      assert requests[..i] == requests;
      removed := |requests| - |cleaned|;
      requests := cleaned;
    }

    /** Appending a new request (the modals' `pending_requests.append`). */
    method Append(r: LeaveRequest)
      modifies this
      ensures requests == old(requests) + [r]
    {
      requests := requests + [r];
    }
  }
}
