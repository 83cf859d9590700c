/**
 * The current-team predicate of `core/utils.py` (duplicated verbatim in
 * `core/user_stats.py`) and the `any(...)` form used by the current-team
 * manager.
 */
module TeamRoles {
  import opened Wrappers
  import opened Text

  const CurrentTeamRoleName := "current-team"

  /** `[role.name.lower() for role in user_roles]`. */
  function LoweredNames(roles: seq<string>): (r: seq<string>)
    ensures |r| == |roles| && forall i :: 0 <= i < |roles| ==> r[i] == Lower(roles[i])
  {
    if roles == [] then [] else LoweredNames(roles[..|roles| - 1]) + [Lower(roles[|roles| - 1])]
  }

  /** `has_current_team_role`: "current-team" is among the lowered role names. */
  predicate HasCurrentTeamRole(roles: seq<string>) {
    CurrentTeamRoleName in LoweredNames(roles)
  }

  /** `CurrentTeamManager._has_current_team_role`: some role equals "current-team" ignoring case. */
  predicate AnyCurrentTeamRole(roles: seq<string>) {
    exists i :: 0 <= i < |roles| && Lower(roles[i]) == Lower(CurrentTeamRoleName)
  }

  lemma LowerCurrentTeam()
    ensures Lower(CurrentTeamRoleName) == CurrentTeamRoleName
  {
    var s := CurrentTeamRoleName;
    assert forall i :: 0 <= i < |s| ==> !('A' <= s[i] <= 'Z');
  }

  /**
   * The two spellings of the predicate agree on every role list, and both
   * accept a list exactly when some role name lowers to "current-team".
   */
  lemma CurrentTeamPredicatesAgree(roles: seq<string>)
    ensures HasCurrentTeamRole(roles) <==> AnyCurrentTeamRole(roles)
    ensures HasCurrentTeamRole(roles) <==> exists i :: 0 <= i < |roles| && Lower(roles[i]) == "current-team"
  {
    LowerCurrentTeam();
    var l := LoweredNames(roles);
    if HasCurrentTeamRole(roles) {
      var i :| 0 <= i < |l| && l[i] == CurrentTeamRoleName;
      assert Lower(roles[i]) == "current-team";
    }
  }

  /** An empty role list is never current-team. */
  lemma NoRolesNotCurrentTeam()
    ensures !HasCurrentTeamRole([])
  {
  }

  /** Role names that lower alike give the same answer: the test ignores case. */
  lemma CurrentTeamIgnoresCase(roles: seq<string>, other: seq<string>)
    requires |roles| == |other| && forall i :: 0 <= i < |roles| ==> Lower(roles[i]) == Lower(other[i])
    ensures HasCurrentTeamRole(roles) <==> HasCurrentTeamRole(other)
  {
    assert LoweredNames(roles) == LoweredNames(other);
  }

  /** Any casing of "current-team" is accepted, wherever it stands in the list. */
  lemma AnyCasingAccepted(roles: seq<string>, k: nat)
    requires k < |roles| && Lower(roles[k]) == "current-team"
    ensures HasCurrentTeamRole(roles)
  {
    CurrentTeamPredicatesAgree(roles);
  }

  /** The text of the ValueError for a member without the role. */
  const NotCurrentTeamMessage :=
    "This bot only monitors members with the 'current-team' role. Please contact an admin if you should have access."

  /** `validate_current_team_member`: `True`, or the ValueError it raises. */
  function ValidateCurrentTeamMember(roles: seq<string>): (r: Result<bool, string>)
    ensures r.Success? <==> exists i :: 0 <= i < |roles| && Lower(roles[i]) == "current-team"
    ensures r.Success? ==> r.value
  {
    CurrentTeamPredicatesAgree(roles);
    if !HasCurrentTeamRole(roles) then
      Failure(NotCurrentTeamMessage)
    else Success(true)
  }
}
