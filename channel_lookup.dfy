/**
 * Role-to-channel resolution of `core/channel_lookup.py`: a member's team
 * role picks a category, the year role picks a channel-name prefix, and the
 * status channel is "<prefix>-year-status-updates" inside that category.
 */
module ChannelLookup {
  import opened Wrappers

  /** `TEAM_CATEGORY_MAP`: team role name to category name. */
  const TeamCategoryMap: map<string, string> :=
    map["RedTeam" := "Red Teaming", "Android" := "Mobile", "BlockChain" := "Blockchain", "Mobile" := "Mobile"]

  /** `YEAR_CHANNEL_PREFIX_MAP`: year role name to channel prefix; the fourth-year key is spelled "4nd_years". */
  const YearChannelPrefixMap: map<string, string> :=
    map["Trainee Member" := "1st", "1st_years" := "1st", "2nd_years" := "2nd", "3rd_years" := "3rd", "4nd_years" := "4th"]

  /** Where a status update goes: a category and a channel name inside it. */
  datatype ChannelTarget = ChannelTarget(category: string, channel: string)

  /** The last role in list order that is a key of `keys`. */
  function LastMatch(roles: seq<string>, keys: set<string>): (r: Option<string>)
    ensures r.None? <==> forall i :: 0 <= i < |roles| ==> roles[i] !in keys
    ensures r.Some? ==> r.value in keys
  {
    if roles == [] then None
    else if roles[|roles| - 1] in keys then Some(roles[|roles| - 1])
    else
      var init := roles[..|roles| - 1];
      assert forall i :: 0 <= i < |init| ==> init[i] == roles[i];
      LastMatch(init, keys)
  }

  /** The match found is a role of the list, and no later role is a key. */
  lemma {:induction false} LastMatchIsLast(roles: seq<string>, keys: set<string>)
    requires LastMatch(roles, keys).Some?
    ensures exists k :: 0 <= k < |roles| && roles[k] == LastMatch(roles, keys).value
                        && forall j :: k < j < |roles| ==> roles[j] !in keys
  {
    var n := |roles| - 1;
    if roles[n] !in keys {
      var init := roles[..n];
      LastMatchIsLast(init, keys);
      var k :| 0 <= k < |init| && init[k] == LastMatch(init, keys).value
                && forall j :: k < j < |init| ==> init[j] !in keys;
      assert roles[k] == init[k];
      assert forall j :: k < j < |roles| ==> roles[j] !in keys by {
        forall j | k < j < |roles|
          ensures roles[j] !in keys
        {
          if j < n {
            assert roles[j] == init[j];
          }
        }
      }
    }
  }

  /**
   * The status channel for a role list, given the names of the guild's
   * categories; a missing channel is created by the source, so only a
   * missing category gives no target.
   */
  function StatusChannel(roles: seq<string>, categories: set<string>): Option<ChannelTarget> {
    Resolve(roles, categories, TeamCategoryMap, YearChannelPrefixMap)
  }

  /** The resolution rule over any team and year tables. */
  function Resolve(roles: seq<string>, categories: set<string>, teams: map<string, string>,
                   years: map<string, string>): Option<ChannelTarget> {
    var team := LastMatch(roles, teams.Keys);
    var year := LastMatch(roles, years.Keys);
    if team.None? || year.None? then None
    else
      var category := teams[team.value];
      if category !in categories then None
      else Some(ChannelTarget(category, years[year.value] + "-year-status-updates"))
  }

  /** `get_user_status_channel`, without the Discord lookups and the channel creation. */
  method GetUserStatusChannel(roles: seq<string>, categories: set<string>) returns (target: Option<ChannelTarget>)
    ensures target == StatusChannel(roles, categories)
  {
    var team: Option<string> := None;
    var year: Option<string> := None;
    var i := 0;
    while i < |roles|
      invariant 0 <= i <= |roles|
      invariant team == LastMatch(roles[..i], TeamCategoryMap.Keys)
      invariant year == LastMatch(roles[..i], YearChannelPrefixMap.Keys)
    {
      assert roles[..i + 1][..i] == roles[..i];
      if roles[i] in TeamCategoryMap {
        team := Some(roles[i]);
      }
      if roles[i] in YearChannelPrefixMap {
        year := Some(roles[i]);
      }
      i := i + 1;
    }
    assert roles[..i] == roles;
    if team.None? || year.None? {
      return None;
    }
    var category := TeamCategoryMap[team.value];
    if category !in categories {
      return None;
    }
    target := Some(ChannelTarget(category, YearChannelPrefixMap[year.value] + "-year-status-updates"));
  }

  /**
   * A channel is resolved exactly when the roles hold a team key and a year
   * key and the team's category exists; it is then the channel named after
   * the last year key in the category of the last team key.
   */
  lemma ResolveSpec(roles: seq<string>, categories: set<string>, teams: map<string, string>, years: map<string, string>)
    ensures Resolve(roles, categories, teams, years).Some? <==>
      (exists i :: 0 <= i < |roles| && roles[i] in teams)
      && (exists j :: 0 <= j < |roles| && roles[j] in years)
      && teams[LastMatch(roles, teams.Keys).value] in categories
    ensures Resolve(roles, categories, teams, years).Some? ==>
      exists i, j :: 0 <= i < |roles| && 0 <= j < |roles|
        && roles[i] in teams && roles[j] in years
        && Resolve(roles, categories, teams, years).value
           == ChannelTarget(teams[roles[i]], years[roles[j]] + "-year-status-updates")
        && (forall k :: i < k < |roles| ==> roles[k] !in teams)
        && (forall k :: j < k < |roles| ==> roles[k] !in years)
  {
    var team := LastMatch(roles, teams.Keys);
    var year := LastMatch(roles, years.Keys);
    if team.Some? {
      LastMatchIsLast(roles, teams.Keys);
    }
    if year.Some? {
      LastMatchIsLast(roles, years.Keys);
    }
    if team.Some? && year.Some? && teams[team.value] in categories {
      var i :| 0 <= i < |roles| && roles[i] == team.value && forall k :: i < k < |roles| ==> roles[k] !in teams.Keys;
      var j :| 0 <= j < |roles| && roles[j] == year.value && forall k :: j < k < |roles| ==> roles[k] !in years.Keys;
      assert roles[i] in teams && roles[j] in years;
    }
  }

  /** A member whose only fourth-year role is "4th_years" gets no year match and so no channel. */
  lemma FourthYearsHaveNoChannel(roles: seq<string>, categories: set<string>)
    requires forall i :: 0 <= i < |roles| ==> roles[i] == "4th_years" || roles[i] !in YearChannelPrefixMap
    ensures StatusChannel(roles, categories).None?
  {
  }

  /** Android and Mobile share the "Mobile" category; Trainee Member and 1st_years share the "1st" prefix. */
  lemma SharedTargets(roles: seq<string>, categories: set<string>)
    ensures StatusChannel(roles + ["Android", "Trainee Member"], categories)
         == StatusChannel(roles + ["Mobile", "1st_years"], categories)
  {
    var a := roles + ["Android", "Trainee Member"];
    var b := roles + ["Mobile", "1st_years"];
    assert a[..|a| - 1] == roles + ["Android"];
    assert b[..|b| - 1] == roles + ["Mobile"];
    assert "Trainee Member" !in TeamCategoryMap.Keys && "1st_years" !in TeamCategoryMap.Keys;
    assert LastMatch(a, TeamCategoryMap.Keys) == Some("Android");
    assert LastMatch(b, TeamCategoryMap.Keys) == Some("Mobile");
    assert LastMatch(a, YearChannelPrefixMap.Keys) == Some("Trainee Member");
    assert LastMatch(b, YearChannelPrefixMap.Keys) == Some("1st_years");
  }
}
