/**
 * The approval hierarchy of `ui/buttons.py`: role levels, the rule that an
 * approver must outrank the requester, the display name of a member's
 * highest role, and the order of the permission checks behind the Approve
 * and Deny buttons.
 */
module Hierarchy {

  /** `ROLE_HIERARCHY`. */
  const RoleHierarchy: map<string, nat> :=
    map["Trainee Member" := 1, "2nd_years" := 2, "3rd_years" := 3, "4th_years" := 4, "Core Member" := 4]

  /** The level one role name contributes: its hierarchy value, or 0. */
  function RoleLevel(name: string): nat {
    if name in RoleHierarchy then RoleHierarchy[name] else 0
  }

  /** The highest level over a role list, 0 for none. */
  function MaxLevel(roles: seq<string>): nat {
    if roles == [] then 0
    else
      var rest := MaxLevel(roles[..|roles| - 1]);
      var last := RoleLevel(roles[|roles| - 1]);
      if last > rest then last else rest
  }

  /** `MaxLevel` is the maximum: every role is at most it, and it is 0 or reached by some role. */
  lemma {:induction false} MaxLevelIsMaximum(roles: seq<string>)
    ensures forall i :: 0 <= i < |roles| ==> RoleLevel(roles[i]) <= MaxLevel(roles)
    ensures MaxLevel(roles) == 0 || exists i :: 0 <= i < |roles| && RoleLevel(roles[i]) == MaxLevel(roles)
  {
    if roles != [] {
      var init := roles[..|roles| - 1];
      MaxLevelIsMaximum(init);
      assert forall i :: 0 <= i < |init| ==> roles[i] == init[i];
    }
  }

  /** `get_user_level`. */
  method GetUserLevel(roles: seq<string>) returns (level: nat)
    ensures forall i :: 0 <= i < |roles| ==> RoleLevel(roles[i]) <= level
    ensures level == 0 || exists i :: 0 <= i < |roles| && RoleLevel(roles[i]) == level
    ensures level == MaxLevel(roles)
  {
    level := 0;
    var i := 0;
    while i < |roles|
      invariant 0 <= i <= |roles|
      invariant level == MaxLevel(roles[..i])
    {
      assert roles[..i + 1][..i] == roles[..i];
      if roles[i] in RoleHierarchy {
        level := if RoleHierarchy[roles[i]] > level then RoleHierarchy[roles[i]] else level;
      }
      i := i + 1;
    }
    assert roles[..i] == roles;
    MaxLevelIsMaximum(roles);
  }

  /** `can_approve_request`: the approver must have a strictly higher level. */
  predicate CanApprove(approverRoles: seq<string>, requesterRoles: seq<string>) {
    MaxLevel(approverRoles) > MaxLevel(requesterRoles)
  }

  /** Approval is asymmetric (and so irreflexive): no two members can each approve the other. */
  lemma ApprovalAsymmetric(a: seq<string>, b: seq<string>)
    ensures !(CanApprove(a, b) && CanApprove(b, a))
    ensures !CanApprove(a, a)
  {
  }

  /** Equal levels never approve: a Core Member cannot approve a 4th-year, nor the reverse. */
  lemma EqualLevelsNeverApprove(a: seq<string>, b: seq<string>)
    requires MaxLevel(a) == MaxLevel(b)
    ensures !CanApprove(a, b) && !CanApprove(b, a)
  {
  }

  lemma CoreMemberAndFourthYearsTie()
    ensures MaxLevel(["Core Member"]) == MaxLevel(["4th_years"]) == 4
    ensures !CanApprove(["Core Member"], ["4th_years"]) && !CanApprove(["4th_years"], ["Core Member"])
  {
    assert ["Core Member"][..0] == [] && ["4th_years"][..0] == [];
  }

  /** "1st_years" is not in the hierarchy: a first-year ranks with no role at all. */
  lemma FirstYearsHaveLevelZero(roles: seq<string>)
    requires forall i :: 0 <= i < |roles| ==> roles[i] == "1st_years"
    ensures MaxLevel(roles) == 0
  {
    MaxLevelIsMaximum(roles);
  }

  /** `get_role_display_name`: the first role reaching the highest level, else "Unknown". */
  method GetRoleDisplayName(roles: seq<string>) returns (name: string)
    ensures MaxLevel(roles) == 0 ==> name == "Unknown"
    ensures MaxLevel(roles) > 0 ==>
      exists k :: 0 <= k < |roles| && name == roles[k] && RoleLevel(roles[k]) == MaxLevel(roles)
        && forall j :: 0 <= j < k ==> RoleLevel(roles[j]) < MaxLevel(roles)
  {
    var highest: nat := 0;
    name := "Unknown";
    var i := 0;
    ghost var at := 0;
    while i < |roles|
      invariant 0 <= i <= |roles|
      invariant highest == MaxLevel(roles[..i])
      invariant highest == 0 ==> name == "Unknown"
      invariant highest > 0 ==> 0 <= at < i && name == roles[at] && RoleLevel(roles[at]) == highest
                                && forall j :: 0 <= j < at ==> RoleLevel(roles[j]) < highest
    {
      assert roles[..i + 1][..i] == roles[..i];
      MaxLevelIsMaximum(roles[..i]);
      assert forall j :: 0 <= j < i ==> roles[..i][j] == roles[j];
      if roles[i] in RoleHierarchy {
        var level := RoleHierarchy[roles[i]];
        if level > highest {
          highest := level;
          name := roles[i];
          at := i;
        }
      }
      i := i + 1;
    }
    assert roles[..i] == roles;
  }

  /** Why an Approve or Deny press was refused, or that it was allowed. */
  datatype Permission = SelfAction | RequesterNotFound | InsufficientLevel | Allowed

  /**
   * `_check_permissions`: self-action first, then a requester the guild cannot
   * resolve (`directory` maps the guild's member ids to their roles), then
   * the hierarchy.
   */
  function CheckPermissions(actorId: nat, actorRoles: seq<string>, requesterId: nat,
                            directory: map<nat, seq<string>>): (p: Permission)
    ensures p == SelfAction <==> actorId == requesterId
    ensures p == RequesterNotFound <==> actorId != requesterId && requesterId !in directory
    ensures p == InsufficientLevel <==> actorId != requesterId && requesterId in directory
                                        && MaxLevel(actorRoles) <= MaxLevel(directory[requesterId])
    ensures p == Allowed <==> actorId != requesterId && requesterId in directory
                              && CanApprove(actorRoles, directory[requesterId])
  {
    if actorId == requesterId then SelfAction
    else if requesterId !in directory then RequesterNotFound
    else if !CanApprove(actorRoles, directory[requesterId]) then InsufficientLevel
    else Allowed
  }

  /** Acting on one's own request is refused whatever one's level. */
  lemma SelfActionAlwaysRefused(id: nat, roles: seq<string>, directory: map<nat, seq<string>>)
    ensures CheckPermissions(id, roles, id, directory) == SelfAction
  {
  }

  /** `has_auto_approval_privilege`: holding the "Core Member" role. */
  predicate HasAutoApprovalPrivilege(roles: seq<string>) {
    "Core Member" in roles
  }

  /** A Core Member has the top level, so is outranked by nobody. */
  lemma CoreMemberNeverOutranked(a: seq<string>, b: seq<string>)
    requires HasAutoApprovalPrivilege(b)
    ensures !CanApprove(a, b)
  {
    MaxLevelIsMaximum(a);
    MaxLevelIsMaximum(b);
    var k :| 0 <= k < |b| && b[k] == "Core Member";
    assert RoleLevel(b[k]) == 4;
  }
}
