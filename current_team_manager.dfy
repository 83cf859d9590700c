/**
 * `CurrentTeamManager` of `core/current_team_manager.py`: a per-guild cache
 * of the ids of current-team members with the time it was built, valid for
 * 30 minutes, rebuilt lazily from the guild's member list, and patched one
 * id at a time when a member's roles change. Times are microseconds and the
 * current time is a parameter.
 */
module CurrentTeam {
  import opened Members
  import opened TeamRoles

  /** The validity window: 30 minutes, in microseconds. */
  const CacheDuration := 1_800_000_000

  /** One guild's cache: `{"user_ids": ..., "last_updated": ...}`. */
  datatype CacheEntry = CacheEntry(userIds: set<nat>, lastUpdated: int)

  /** The ids a rebuild collects: non-bot members with a role named "current-team" in any casing. */
  function TeamIds(members: seq<Member>): (ids: set<nat>)
    ensures forall m :: m in members && !m.bot && AnyCurrentTeamRole(m.roles) ==> m.id in ids
    ensures forall id :: id in ids ==> exists m :: m in members && !m.bot && AnyCurrentTeamRole(m.roles) && m.id == id
  {
    if members == [] then {}
    else
      var init := members[..|members| - 1];
      var m := members[|members| - 1];
      assert members == init + [m];
      TeamIds(init) + (if !m.bot && AnyCurrentTeamRole(m.roles) then {m.id} else {})
  }

  /** There are never more cached ids than guild members. */
  lemma {:induction false} TeamIdsBound(members: seq<Member>)
    ensures |TeamIds(members)| <= |members|
  {
    if members != [] {
      TeamIdsBound(members[..|members| - 1]);
    }
  }

  /** The members, in list order, whose ids are in `ids`. */
  function MembersIn(members: seq<Member>, ids: set<nat>): (r: seq<Member>)
    ensures |r| <= |members|
    ensures forall m :: m in r <==> m in members && m.id in ids
  {
    if members == [] then []
    else
      var init := members[..|members| - 1];
      var m := members[|members| - 1];
      assert members == init + [m];
      MembersIn(init, ids) + (if m.id in ids then [m] else [])
  }

  /** A rebuild over one more member adds that member's id when it qualifies. */
  lemma TeamIdsStep(members: seq<Member>, i: nat)
    requires i < |members|
    ensures TeamIds(members[..i + 1])
      == TeamIds(members[..i]) + (if !members[i].bot && AnyCurrentTeamRole(members[i].roles) then {members[i].id} else {})
  {
    assert members[..i + 1][..i] == members[..i];
  }

  /** The listing over one more member appends that member when its id is cached. */
  lemma MembersInStep(members: seq<Member>, ids: set<nat>, i: nat)
    requires i < |members|
    ensures MembersIn(members[..i + 1], ids) == MembersIn(members[..i], ids) + (if members[i].id in ids then [members[i]] else [])
  {
    assert members[..i + 1][..i] == members[..i];
  }

  /** The scan of `_update_cache`: the ids of the non-bot members with a current-team role. */
  method CollectTeamIds(members: seq<Member>) returns (ids: set<nat>)
    ensures ids == TeamIds(members)
  {
    ids := {};
    var i := 0;
    while i < |members|
      invariant 0 <= i <= |members|
      invariant ids == TeamIds(members[..i])
    {
      TeamIdsStep(members, i);
      var m := members[i];
      if !m.bot && AnyCurrentTeamRole(m.roles) {
        ids := ids + {m.id};
      }
      i := i + 1;
    }
    assert members[..i] == members;
  }

  /** The listing of `get_current_team_members`: the members, in order, whose ids are in `ids`. */
  method ListMembersIn(members: seq<Member>, ids: set<nat>) returns (r: seq<Member>)
    ensures r == MembersIn(members, ids)
  {
    r := [];
    var i := 0;
    while i < |members|
      invariant 0 <= i <= |members|
      invariant r == MembersIn(members[..i], ids)
    {
      MembersInStep(members, ids, i);
      if members[i].id in ids {
        r := r + [members[i]];
      }
      i := i + 1;
    }
    assert members[..i] == members;
  }

  /** The members, in list order, that `is_current_team_member` accepts against `ids`. */
  function Accepted(members: seq<Member>, ids: set<nat>): (r: seq<Member>)
    ensures |r| <= |members|
    ensures forall m :: m in r <==> m in members && !m.bot && m.id in ids
  {
    if members == [] then []
    else
      var init := members[..|members| - 1];
      var m := members[|members| - 1];
      assert members == init + [m];
      Accepted(init, ids) + (if !m.bot && m.id in ids then [m] else [])
  }

  /** Ids identify members: no two members of the list share an id. */
  predicate DistinctIds(members: seq<Member>) {
    forall i, j :: 0 <= i < j < |members| ==> members[i].id != members[j].id
  }

  /**
   * Right after a rebuild, the guild's listed members are exactly its
   * non-bot current-team members, in guild order.
   */
  lemma {:induction false} RebuiltMembersAreTheTeam(members: seq<Member>)
    requires DistinctIds(members)
    ensures forall m :: m in MembersIn(members, TeamIds(members)) <==> m in members && !m.bot && AnyCurrentTeamRole(m.roles)
  {
    forall m | m in members && m.id in TeamIds(members)
      ensures !m.bot && AnyCurrentTeamRole(m.roles)
    {
      var w :| w in members && !w.bot && AnyCurrentTeamRole(w.roles) && w.id == m.id;
      var i :| 0 <= i < |members| && members[i] == m;
      var j :| 0 <= j < |members| && members[j] == w;
      assert i == j;
    }
  }

  class CurrentTeamManager {
    /** `_cache`: guild id to its cache entry. */
    var cache: map<nat, CacheEntry>

    constructor (initial: map<nat, CacheEntry>)
      ensures cache == initial
    {
      cache := initial;
    }

    /** `_is_cache_valid`: the guild is cached and its entry is younger than 30 minutes. */
    predicate IsCacheValid(guildId: nat, now: int)
      reads this
    {
      guildId in cache && now - cache[guildId].lastUpdated < CacheDuration
    }

    /**
     * `_update_cache`: rebuilds the guild's entry from its member list, stamped
     * `now`, leaving every other guild alone; returns the new id set.
     */
    method UpdateCache(guild: Guild, now: int) returns (ids: set<nat>)
      modifies this
      ensures ids == TeamIds(guild.members)
      ensures cache == old(cache)[guild.id := CacheEntry(ids, now)]
      ensures IsCacheValid(guild.id, now)
    {
      ids := CollectTeamIds(guild.members);
      cache := cache[guild.id := CacheEntry(ids, now)];
    }

    /**
     * `is_current_team_member`: bots never; otherwise a valid cache answers
     * without change, and a stale or missing one is rebuilt first.
     */
    method IsCurrentTeamMember(m: Member, guild: Guild, now: int) returns (member: bool)
      modifies this
      ensures m.bot ==> !member && cache == old(cache)
      ensures !m.bot && old(IsCacheValid(guild.id, now)) ==> member == (m.id in old(cache)[guild.id].userIds) && cache == old(cache)
      ensures !m.bot && !old(IsCacheValid(guild.id, now)) ==>
        member == (m.id in TeamIds(guild.members)) && cache == old(cache)[guild.id := CacheEntry(TeamIds(guild.members), now)]
    {
      if m.bot {
        return false;
      }
      if IsCacheValid(guild.id, now) {
        return m.id in cache[guild.id].userIds;
      }
      var ids := UpdateCache(guild, now);
      return m.id in ids;
    }

    /**
     * `get_current_team_members`: rebuilds when forced or stale, then lists
     * the guild's members, in guild order, whose ids are cached.
     */
    method GetCurrentTeamMembers(guild: Guild, forceRefresh: bool, now: int) returns (members: seq<Member>)
      modifies this
      ensures cache == if forceRefresh || !old(IsCacheValid(guild.id, now))
                       then old(cache)[guild.id := CacheEntry(TeamIds(guild.members), now)] else old(cache)
      ensures members == MembersIn(guild.members, cache[guild.id].userIds)
    {
      if forceRefresh || !IsCacheValid(guild.id, now) {
        var _ := UpdateCache(guild, now);
      }
      members := ListMembersIn(guild.members, cache[guild.id].userIds);
    }

    /** `get_current_team_count`: the size of the (refreshed if stale) id set. */
    method GetCurrentTeamCount(guild: Guild, now: int) returns (count: nat)
      modifies this
      ensures cache == if !old(IsCacheValid(guild.id, now))
                       then old(cache)[guild.id := CacheEntry(TeamIds(guild.members), now)] else old(cache)
      ensures count == |cache[guild.id].userIds|
      ensures !old(IsCacheValid(guild.id, now)) ==> count <= |guild.members|
    {
      if !IsCacheValid(guild.id, now) {
        var _ := UpdateCache(guild, now);
        TeamIdsBound(guild.members);
      }
      count := |cache[guild.id].userIds|;
    }

    /** `force_refresh_cache`: always rebuilds. */
    method ForceRefreshCache(guild: Guild, now: int)
      modifies this
      ensures cache == old(cache)[guild.id := CacheEntry(TeamIds(guild.members), now)]
    {
      var _ := UpdateCache(guild, now);
    }

    /** `remove_member_from_cache`: drops one id from a cached guild, keeping its time stamp. */
    method RemoveMemberFromCache(guildId: nat, userId: nat)
      modifies this
      ensures guildId in old(cache) ==>
        cache == old(cache)[guildId := old(cache)[guildId].(userIds := old(cache)[guildId].userIds - {userId})]
      ensures guildId !in old(cache) ==> cache == old(cache)
    {
      if guildId in cache {
        cache := cache[guildId := cache[guildId].(userIds := cache[guildId].userIds - {userId})];
      }
    }

    /** `add_member_to_cache`: adds one id to a cached guild, keeping its time stamp. */
    method AddMemberToCache(guildId: nat, userId: nat)
      modifies this
      ensures guildId in old(cache) ==>
        cache == old(cache)[guildId := old(cache)[guildId].(userIds := old(cache)[guildId].userIds + {userId})]
      ensures guildId !in old(cache) ==> cache == old(cache)
    {
      if guildId in cache {
        cache := cache[guildId := cache[guildId].(userIds := cache[guildId].userIds + {userId})];
      }
    }

    /** The guild's cache is valid at `now` and holds exactly `ids`. */
    ghost predicate Settled(guildId: nat, now: int, ids: set<nat>)
      reads this
    {
      IsCacheValid(guildId, now) && cache[guildId].userIds == ids
    }

    /**
     * `filter_current_team_members` over members of one guild: keeps, in
     * order, the members `is_current_team_member` accepts. The first non-bot
     * member may rebuild a stale cache; the rest are answered from it.
     */
    method FilterCurrentTeamMembers(guild: Guild, members: seq<Member>, now: int) returns (kept: seq<Member>)
      modifies this
      ensures var ids := if old(IsCacheValid(guild.id, now)) then old(cache)[guild.id].userIds else TeamIds(guild.members);
        kept == Accepted(members, ids)
      ensures cache == old(cache) || cache == old(cache)[guild.id := CacheEntry(TeamIds(guild.members), now)]
    {
      ghost var ids := if IsCacheValid(guild.id, now) then cache[guild.id].userIds else TeamIds(guild.members);
      kept := [];
      var i := 0;
      while i < |members|
        invariant 0 <= i <= |members|
        invariant kept == Accepted(members[..i], ids)
        invariant cache == old(cache) || cache == old(cache)[guild.id := CacheEntry(TeamIds(guild.members), now)]
        invariant Settled(guild.id, now, ids) || (cache == old(cache) && !IsCacheValid(guild.id, now))
      {
        assert members[..i + 1][..i] == members[..i];
        var accepted := IsCurrentTeamMember(members[i], guild, now);
        if accepted {
          kept := kept + [members[i]];
        }
        i := i + 1;
      }
      assert members[..i] == members;
    }
  }
}
