/**
 * The decisions `main.py` makes around the stores: which cache patch a
 * role change triggers (`on_member_update`), the Monday of the reported
 * week and the all-member summary of `weekly_report`, and the candidate
 * filter, channel grouping and mention batching of `daily_reminder`.
 */
module Bot {
  import opened Wrappers
  import opened Sequences
  import opened Calendar
  import opened Text
  import opened DateText
  import opened Members
  import opened TeamRoles
  import opened ChannelLookup
  import opened Ledger
  import opened UserStats
  import opened CasualLeave
  import opened PendingRequests
  import opened Validators
  import opened Warnings
  import opened CurrentTeam

  // ---------------------------------------------------------------------
  // Role changes

  /** The cache patch a role change asks for. */
  datatype CacheAction = AddToCache | RemoveFromCache | NoCacheChange

  /**
   * The rule of `on_member_update`: an add when "current-team" (any casing)
   * is among the new role names only, a remove when it is among the old
   * ones only, nothing otherwise.
   */
  function RoleDiff(before: seq<string>, after: seq<string>): (a: CacheAction)
    ensures a == AddToCache <==> HasCurrentTeamRole(after) && !HasCurrentTeamRole(before)
    ensures a == RemoveFromCache <==> HasCurrentTeamRole(before) && !HasCurrentTeamRole(after)
  {
    LowerCurrentTeam();
    var role := Lower(CurrentTeamRoleName);
    if role in LoweredNames(after) && role !in LoweredNames(before) then AddToCache
    else if role in LoweredNames(before) && role !in LoweredNames(after) then RemoveFromCache
    else NoCacheChange
  }

  /** Changes that keep the current-team role, or reorder roles, patch nothing; undoing a change swaps add and remove. */
  lemma RoleDiffSymmetry(before: seq<string>, after: seq<string>)
    ensures RoleDiff(before, before) == NoCacheChange
    ensures RoleDiff(before, after) == AddToCache <==> RoleDiff(after, before) == RemoveFromCache
    ensures HasCurrentTeamRole(before) == HasCurrentTeamRole(after) ==> RoleDiff(before, after) == NoCacheChange
  {
  }

  /**
   * `on_member_update`: applies the patch to the cache. A cached guild then
   * lists the member exactly when their new roles carry "current-team", its
   * time stamp is kept, and no other guild changes.
   */
  method OnMemberUpdate(manager: CurrentTeamManager, guildId: nat, memberId: nat, before: seq<string>, after: seq<string>)
    returns (action: CacheAction)
    modifies manager
    ensures action == RoleDiff(before, after)
    ensures action == NoCacheChange ==> manager.cache == old(manager.cache)
    ensures manager.cache.Keys == old(manager.cache).Keys
    ensures forall g :: g in manager.cache && g != guildId ==> manager.cache[g] == old(manager.cache)[g]
    ensures guildId in old(manager.cache) && action != NoCacheChange ==>
      manager.cache[guildId].lastUpdated == old(manager.cache)[guildId].lastUpdated
      && (memberId in manager.cache[guildId].userIds <==> HasCurrentTeamRole(after))
  {
    action := RoleDiff(before, after);
    if action == AddToCache {
      manager.AddMemberToCache(guildId, memberId);
    } else if action == RemoveFromCache {
      manager.RemoveMemberFromCache(guildId, memberId);
    }
  }

  // ---------------------------------------------------------------------
  // The weekly report

  /**
   * The Monday of the reported week: this week's Monday, `weekOffset` weeks
   * back; `None` where that falls outside the calendar (an `OverflowError`).
   */
  function TargetWeekMonday(today: Day, weekOffset: int): (r: Option<Day>)
    ensures r.None? <==> !(1 <= today - Weekday(today) - 7 * weekOffset <= MaxOrdinal)
    ensures r.Some? ==> r.value == today - Weekday(today) - 7 * weekOffset && Weekday(r.value) == 0
  {
    var monday := today - Weekday(today) - 7 * weekOffset;
    if 1 <= monday <= MaxOrdinal then
      MondayOfWeek(today);
      MondayStep(today - Weekday(today), weekOffset);
      Some(monday)
    else None
  }

  /** Whole weeks away from a Monday is a Monday. */
  lemma MondayStep(monday: Day, weeks: int)
    requires Weekday(monday) == 0 && 1 <= monday - 7 * weeks <= MaxOrdinal
    ensures Weekday(monday - 7 * weeks) == 0
  {
    assert (monday - 7 * weeks + 6) == (monday + 6) + 7 * (-weeks);
  }

  /** One line of the all-member summary. */
  datatype SummaryRow = SummaryRow(name: string, hours: real, targetMet: bool, submissions: nat)

  /** At most 15 lines are shown. */
  const SummaryLimit := 15

  /**
   * The summary lines collected, in member order: one for each member with
   * at least one submission on the week's dates.
   */
  function SummaryRows(users: map<nat, UserLedger>, members: seq<Member>, dates: seq<string>): (r: seq<SummaryRow>)
    ensures |r| <= |members|
    ensures forall i :: 0 <= i < |r| ==> r[i].submissions > 0 && (r[i].targetMet <==> r[i].hours >= WeeklyTarget)
  {
    if members == [] then []
    else
      var init := SummaryRows(users, members[..|members| - 1], dates);
      var m := members[|members| - 1];
      if m.id in users && CountOver(users[m.id].subs, dates) > 0 then
        var hours := HoursOver(users[m.id].subs, dates);
        init + [SummaryRow(m.displayName, hours, hours >= WeeklyTarget, CountOver(users[m.id].subs, dates))]
      else init
  }

  /** The rows over one more member gain that member's row when it has submissions on the dates. */
  lemma SummaryRowsStep(users: map<nat, UserLedger>, members: seq<Member>, dates: seq<string>, i: nat)
    requires i < |members|
    ensures var m := members[i];
      SummaryRows(users, members[..i + 1], dates) == SummaryRows(users, members[..i], dates)
        + (if m.id in users && CountOver(users[m.id].subs, dates) > 0
           then [SummaryRow(m.displayName, HoursOver(users[m.id].subs, dates),
                            HoursOver(users[m.id].subs, dates) >= WeeklyTarget, CountOver(users[m.id].subs, dates))]
           else [])
  {
    assert members[..i + 1][..i] == members[..i];
  }

  /** Hours never increase along the list. */
  predicate SortedByHours(rows: seq<SummaryRow>) {
    forall i, j :: 0 <= i < j < |rows| ==> rows[i].hours >= rows[j].hours
  }

  /** Inserts a line after every line with at least as many hours, keeping ties in arrival order. */
  function InsertByHours(sorted: seq<SummaryRow>, row: SummaryRow): (r: seq<SummaryRow>)
    ensures multiset(r) == multiset(sorted) + multiset{row}
  {
    if sorted == [] then [row]
    else if sorted[0].hours >= row.hours then
      assert sorted == [sorted[0]] + sorted[1..];
      [sorted[0]] + InsertByHours(sorted[1..], row)
    else [row] + sorted
  }

  /** Inserting into a list sorted by hours keeps it sorted. */
  lemma {:induction false} InsertKeepsSorted(sorted: seq<SummaryRow>, row: SummaryRow)
    requires SortedByHours(sorted)
    ensures SortedByHours(InsertByHours(sorted, row))
  {
    if sorted != [] && sorted[0].hours >= row.hours {
      var rest := InsertByHours(sorted[1..], row);
      InsertKeepsSorted(sorted[1..], row);
      forall k | 0 <= k < |rest|
        ensures sorted[0].hours >= rest[k].hours
      {
        assert rest[k] in multiset(rest);
        if rest[k] != row {
          assert rest[k] in multiset(sorted[1..]);
          var j :| 0 <= j < |sorted[1..]| && sorted[1..][j] == rest[k];
          assert sorted[j + 1] == rest[k];
        }
      }
    }
  }

  /** `summary_data.sort(key=hours, reverse=True)`: a stable sort by hours, largest first. */
  function SortedRows(rows: seq<SummaryRow>): (r: seq<SummaryRow>)
    ensures SortedByHours(r)
    ensures multiset(r) == multiset(rows)
  {
    if rows == [] then []
    else
      assert rows == rows[..|rows| - 1] + [rows[|rows| - 1]];
      var init := SortedRows(rows[..|rows| - 1]);
      InsertKeepsSorted(init, rows[|rows| - 1]);
      InsertByHours(init, rows[|rows| - 1])
  }

  /** `summary_data[:15]`. */
  function Shown(sorted: seq<SummaryRow>): seq<SummaryRow> {
    if |sorted| <= SummaryLimit then sorted else sorted[..SummaryLimit]
  }

  /** The first 15 lines of a list are in it, and keep its order by hours. */
  lemma ShownIsPrefix(s: seq<SummaryRow>)
    ensures |Shown(s)| == (if |s| <= SummaryLimit then |s| else SummaryLimit)
    ensures multiset(s) == multiset(Shown(s)) + multiset(s[|Shown(s)|..])
    ensures SortedByHours(s) ==> SortedByHours(Shown(s))
  {
    assert s == Shown(s) + s[|Shown(s)|..];
  }

  /** Cutting a sorted list after 15 lines leaves out no line with more hours than a line kept. */
  lemma ShownIsTop(s: seq<SummaryRow>)
    requires SortedByHours(s)
    ensures forall x, y :: x in Shown(s) && y in multiset(s) - multiset(Shown(s)) ==> x.hours >= y.hours
  {
    var shown := Shown(s);
    var k := |shown|;
    ShownIsPrefix(s);
    forall x, y | x in shown && y in multiset(s) - multiset(shown)
      ensures x.hours >= y.hours
    {
      assert y in multiset(s[k..]);
      var j :| 0 <= j < |s[k..]| && s[k..][j] == y;
      var i :| 0 <= i < |shown| && shown[i] == x;
      assert s[i] == x && s[k + j] == y;
    }
  }

  /**
   * The summary shows at most 15 of the collected lines, only members with
   * submissions, largest hours first, and no line left out has more hours
   * than a line shown.
   */
  lemma SummaryShowsTopHours(rows: seq<SummaryRow>)
    requires forall i :: 0 <= i < |rows| ==> rows[i].submissions > 0
    ensures var shown := Shown(SortedRows(rows));
      |shown| == (if |rows| <= SummaryLimit then |rows| else SummaryLimit)
      && SortedByHours(shown)
      && multiset(shown) <= multiset(rows)
      && (forall i :: 0 <= i < |shown| ==> shown[i].submissions > 0)
      && (forall x, y :: x in shown && y in multiset(rows) - multiset(shown) ==> x.hours >= y.hours)
  {
    var s := SortedRows(rows);
    assert |s| == |multiset(rows)| == |rows|;
    ShownIsPrefix(s);
    ShownIsTop(s);
    var shown := Shown(s);
    forall i | 0 <= i < |shown|
      ensures shown[i].submissions > 0
    {
      assert shown[i] in multiset(rows);
    }
  }

  /** The row-collecting loop of the all-member summary: one line per member with submissions in the week. */
  method CollectRows(store: UserStore, team: seq<Member>, monday: Day) returns (rows: seq<SummaryRow>)
    requires monday + 6 <= MaxOrdinal
    ensures rows == SummaryRows(store.users, team, WeekDates(monday, 7))
  {
    ghost var dates := WeekDates(monday, 7);
    rows := [];
    var i := 0;
    while i < |team|
      invariant 0 <= i <= |team|
      invariant rows == SummaryRows(store.users, team[..i], dates)
    {
      SummaryRowsStep(store.users, team, dates, i);
      var row := RowFor(store, team[i], monday);
      rows := rows + row;
      i := i + 1;
    }
    assert team[..i] == team;
  }

  /** One member's line of the summary: from its weekly statistics, and only with submissions. */
  method RowFor(store: UserStore, m: Member, monday: Day) returns (row: seq<SummaryRow>)
    requires monday + 6 <= MaxOrdinal
    ensures var dates := WeekDates(monday, 7);
      row == if m.id in store.users && CountOver(store.users[m.id].subs, dates) > 0
             then [SummaryRow(m.displayName, HoursOver(store.users[m.id].subs, dates),
                              HoursOver(store.users[m.id].subs, dates) >= WeeklyTarget, CountOver(store.users[m.id].subs, dates))]
             else []
  {
    var stats := store.GetWeeklyStats(m.id, monday);
    row := [];
    if stats.submissionsCount > 0 {
      row := [SummaryRow(m.displayName, stats.totalHours, stats.targetMet, stats.submissionsCount)];
    }
  }

  /**
   * The all-member branch of `weekly_report`: the current-team members of
   * the guild (the cache refreshed when stale), one line per member with
   * submissions in the week, sorted by hours, the first 15 shown; also the
   * number of current-team members.
   */
  method WeeklySummary(store: UserStore, manager: CurrentTeamManager, guild: Guild, monday: Day, now: int)
    returns (shown: seq<SummaryRow>, teamCount: nat)
    requires monday + 6 <= MaxOrdinal
    modifies manager
    ensures manager.cache == if !old(manager.IsCacheValid(guild.id, now))
                             then old(manager.cache)[guild.id := CacheEntry(TeamIds(guild.members), now)] else old(manager.cache)
    ensures var team := MembersIn(guild.members, manager.cache[guild.id].userIds);
      teamCount == |team| && shown == Shown(SortedRows(SummaryRows(store.users, team, WeekDates(monday, 7))))
  {
    var team := manager.GetCurrentTeamMembers(guild, false, now);
    teamCount := |team|;
    var rows := CollectRows(store, team, monday);
    shown := Shown(SortedRows(rows));
  }

  // ---------------------------------------------------------------------
  // The daily reminder

  /** One non-submitter is reminded: not a bot, in the cached current-team set, not on leave, with a team and a year role. */
  predicate Candidate(m: Member, ids: set<nat>, requests: seq<LeaveRequest>, casual: map<nat, CasualRecord>, today: Day) {
    !m.bot && m.id in ids && !OnLeave(requests, casual, m.id, today) && ValidateUserRoles(m.roles).Success?
  }

  /** The reminder candidates among the non-submitters, in order. */
  function CandidatesAmong(nonSubmitters: seq<Member>, ids: set<nat>, requests: seq<LeaveRequest>,
                           casual: map<nat, CasualRecord>, today: Day): (r: seq<Member>)
    ensures forall m :: m in r <==> m in nonSubmitters && Candidate(m, ids, requests, casual, today)
  {
    if nonSubmitters == [] then []
    else
      var init := nonSubmitters[..|nonSubmitters| - 1];
      var m := nonSubmitters[|nonSubmitters| - 1];
      assert nonSubmitters == init + [m];
      var rest := CandidatesAmong(init, ids, requests, casual, today);
      if Candidate(m, ids, requests, casual, today) then rest + [m] else rest
  }

  /** One more non-submitter is appended exactly when it is a candidate. */
  lemma CandidatesStep(ns: seq<Member>, i: nat, ids: set<nat>, requests: seq<LeaveRequest>,
                       casual: map<nat, CasualRecord>, today: Day)
    requires i < |ns|
    ensures CandidatesAmong(ns[..i + 1], ids, requests, casual, today)
      == CandidatesAmong(ns[..i], ids, requests, casual, today) + (if Candidate(ns[i], ids, requests, casual, today) then [ns[i]] else [])
  {
    assert ns[..i + 1][..i] == ns[..i];
  }

  /**
   * The candidate filter of `daily_reminder`: the guild's members without a
   * submission today, filtered member by member; the first non-bot
   * non-submitter may rebuild a stale current-team cache.
   */
  method ReminderCandidates(store: UserStore, manager: CurrentTeamManager, guild: Guild, requests: seq<LeaveRequest>,
                            casual: map<nat, CasualRecord>, today: Day, now: int) returns (candidates: seq<Member>)
    modifies manager
    ensures var ids := if old(manager.IsCacheValid(guild.id, now)) then old(manager.cache)[guild.id].userIds else TeamIds(guild.members);
      candidates == CandidatesAmong(WithoutSubmission(store.users, guild.members, FormatDMY(today)), ids, requests, casual, today)
    ensures manager.cache == old(manager.cache) || manager.cache == old(manager.cache)[guild.id := CacheEntry(TeamIds(guild.members), now)]
  {
    var nonSubmitters := store.GetUsersWithoutSubmissionForDate(guild.members, today);
    candidates := FilterCandidates(manager, guild, nonSubmitters, requests, casual, today, now);
  }

  /**
   * The checks of one non-submitter, in the order `daily_reminder` makes
   * them; the current-team check may rebuild a stale cache, after which the
   * cache holds `ids`.
   */
  method CheckCandidate(manager: CurrentTeamManager, guild: Guild, m: Member, requests: seq<LeaveRequest>,
                        casual: map<nat, CasualRecord>, today: Day, now: int, ghost ids: set<nat>) returns (keep: bool)
    requires ids == TeamIds(guild.members) || manager.Settled(guild.id, now, ids)
    requires manager.Settled(guild.id, now, ids) || !manager.IsCacheValid(guild.id, now)
    modifies manager
    ensures keep == Candidate(m, ids, requests, casual, today)
    ensures manager.cache == old(manager.cache) || manager.cache == old(manager.cache)[guild.id := CacheEntry(TeamIds(guild.members), now)]
    ensures manager.Settled(guild.id, now, ids) || (manager.cache == old(manager.cache) && !manager.IsCacheValid(guild.id, now))
  {
    keep := false;
    if !m.bot {
      var inTeam := manager.IsCurrentTeamMember(m, guild, now);
      if inTeam {
        var onLeave := UserHasLeaveOnDate(requests, casual, m.id, today);
        keep := !onLeave && ValidateUserRoles(m.roles).Success?;
      }
    }
  }

  /** The member loop of the candidate filter, over the non-submitters. */
  method FilterCandidates(manager: CurrentTeamManager, guild: Guild, nonSubmitters: seq<Member>, requests: seq<LeaveRequest>,
                          casual: map<nat, CasualRecord>, today: Day, now: int) returns (candidates: seq<Member>)
    modifies manager
    ensures var ids := if old(manager.IsCacheValid(guild.id, now)) then old(manager.cache)[guild.id].userIds else TeamIds(guild.members);
      candidates == CandidatesAmong(nonSubmitters, ids, requests, casual, today)
    ensures manager.cache == old(manager.cache) || manager.cache == old(manager.cache)[guild.id := CacheEntry(TeamIds(guild.members), now)]
  {
    ghost var ids := if manager.IsCacheValid(guild.id, now) then manager.cache[guild.id].userIds else TeamIds(guild.members);
    candidates := [];
    var i := 0;
    while i < |nonSubmitters|
      invariant 0 <= i <= |nonSubmitters|
      invariant candidates == CandidatesAmong(nonSubmitters[..i], ids, requests, casual, today)
      invariant manager.cache == old(manager.cache) || manager.cache == old(manager.cache)[guild.id := CacheEntry(TeamIds(guild.members), now)]
      invariant manager.Settled(guild.id, now, ids) || (manager.cache == old(manager.cache) && !manager.IsCacheValid(guild.id, now))
    {
      var keep := CheckCandidate(manager, guild, nonSubmitters[i], requests, casual, today, now, ids);
      CandidatesStep(nonSubmitters, i, ids, requests, casual, today);
      if keep {
        candidates := candidates + [nonSubmitters[i]];
      }
      i := i + 1;
    }
    assert nonSubmitters[..i] == nonSubmitters;
  }

  /**
   * Exactly who is reminded: guild members that are not bots, carry the
   * current-team role, have not submitted today, are in the cached set, are
   * not on leave and have a team and a year role.
   */
  lemma CandidatesExactly(users: map<nat, UserLedger>, members: seq<Member>, ids: set<nat>, requests: seq<LeaveRequest>,
                          casual: map<nat, CasualRecord>, today: Day, m: Member)
    ensures m in CandidatesAmong(WithoutSubmission(users, members, FormatDMY(today)), ids, requests, casual, today) <==>
      m in members && !m.bot && HasCurrentTeamRole(m.roles) && !HasSubmissionOn(users, m.id, FormatDMY(today))
      && m.id in ids && !OnLeave(requests, casual, m.id, today) && ValidateUserRoles(m.roles).Success?
  {
    WithoutSubmissionMembers(users, members, FormatDMY(today));
  }

  /**
   * With a freshly built cache, everyone the warning check would warn for
   * today was among the day's reminder candidates.
   */
  lemma WarnedWereReminded(users: map<nat, UserLedger>, members: seq<Member>, requests: seq<LeaveRequest>,
                           casual: map<nat, CasualRecord>, today: Day, m: Member)
    requires m in members
    requires NeedsReminder(users, m, FormatDMY(today)) && !IsCoreMemberOrExempt(m.roles)
    requires ValidateUserRoles(m.roles).Success? && !OnLeave(requests, casual, m.id, today)
    ensures m in CandidatesAmong(WithoutSubmission(users, members, FormatDMY(today)), TeamIds(members), requests, casual, today)
  {
    CurrentTeamPredicatesAgree(m.roles);
    assert m.id in TeamIds(members);
    CandidatesExactly(users, members, TeamIds(members), requests, casual, today, m);
  }

  /** One channel's reminder group: the channel and its members in candidate order. */
  datatype Group = Group(channel: ChannelTarget, members: seq<Member>)

  /** Index of the group for a channel, if there is one. */
  function FindGroup(groups: seq<Group>, c: ChannelTarget): (r: Option<nat>)
    ensures r.Some? ==> r.value < |groups| && groups[r.value].channel == c
    ensures r.None? ==> forall g :: 0 <= g < |groups| ==> groups[g].channel != c
  {
    if groups == [] then None
    else if groups[|groups| - 1].channel == c then Some(|groups| - 1)
    else FindGroup(groups[..|groups| - 1], c)
  }

  /** `channel_to_members[channel.id]["members"].append(member)`, opening the group on first use. */
  function AddToGroups(groups: seq<Group>, c: ChannelTarget, m: Member): seq<Group> {
    match FindGroup(groups, c)
    case None => groups + [Group(c, [m])]
    case Some(g) => groups[g := groups[g].(members := groups[g].members + [m])]
  }

  /** The groups `daily_reminder` builds, in order of each channel's first member. */
  function Grouped(candidates: seq<Member>, categories: set<string>): seq<Group> {
    if candidates == [] then []
    else
      var init := Grouped(candidates[..|candidates| - 1], categories);
      var m := candidates[|candidates| - 1];
      match StatusChannel(m.roles, categories)
      case None => init
      case Some(c) => AddToGroups(init, c, m)
  }

  /** The number of members over all groups. */
  function TotalSize(groups: seq<Group>): nat {
    if groups == [] then 0 else TotalSize(groups[..|groups| - 1]) + |groups[|groups| - 1].members|
  }

  /** The candidates that resolve to a status channel. */
  function WithChannel(candidates: seq<Member>, categories: set<string>): nat {
    if candidates == [] then 0
    else WithChannel(candidates[..|candidates| - 1], categories)
         + (if StatusChannel(candidates[|candidates| - 1].roles, categories).Some? then 1 else 0)
  }

  /** Groups are keyed by distinct channels, are never empty, and hold only members resolving to their channel. */
  predicate WellGrouped(groups: seq<Group>, categories: set<string>) {
    (forall g, h :: 0 <= g < h < |groups| ==> groups[g].channel != groups[h].channel)
    && (forall g :: 0 <= g < |groups| ==> |groups[g].members| > 0)
    && (forall g, k :: 0 <= g < |groups| && 0 <= k < |groups[g].members| ==>
          StatusChannel(groups[g].members[k].roles, categories) == Some(groups[g].channel))
  }

  lemma {:induction false} TotalSizeUpdate(groups: seq<Group>, g: nat, ms: seq<Member>)
    requires g < |groups|
    ensures TotalSize(groups[g := groups[g].(members := ms)]) == TotalSize(groups) - |groups[g].members| + |ms|
  {
    var n := |groups| - 1;
    var updated := groups[g := groups[g].(members := ms)];
    assert updated[..n] == if g == n then groups[..n] else groups[..n][g := groups[g].(members := ms)];
    if g < n {
      TotalSizeUpdate(groups[..n], g, ms);
    }
  }

  lemma TotalSizeAppend(groups: seq<Group>, grp: Group)
    ensures TotalSize(groups + [grp]) == TotalSize(groups) + |grp.members|
  {
    assert (groups + [grp])[..|groups|] == groups;
  }

  /** Adding one member under its own channel keeps the groups well formed and grows them by one. */
  lemma AddKeepsWellGrouped(groups: seq<Group>, categories: set<string>, c: ChannelTarget, m: Member)
    requires WellGrouped(groups, categories)
    requires StatusChannel(m.roles, categories) == Some(c)
    ensures WellGrouped(AddToGroups(groups, c, m), categories)
    ensures TotalSize(AddToGroups(groups, c, m)) == TotalSize(groups) + 1
  {
    match FindGroup(groups, c)
    case None =>
      OpenGroupKeepsWellGrouped(groups, categories, c, m);
      TotalSizeAppend(groups, Group(c, [m]));
    case Some(g) =>
      ExtendGroupKeepsWellGrouped(groups, categories, g, m);
      TotalSizeUpdate(groups, g, groups[g].members + [m]);
  }

  /** Opening a group for a channel no group has yet. */
  lemma OpenGroupKeepsWellGrouped(groups: seq<Group>, categories: set<string>, c: ChannelTarget, m: Member)
    requires WellGrouped(groups, categories)
    requires StatusChannel(m.roles, categories) == Some(c)
    requires forall g :: 0 <= g < |groups| ==> groups[g].channel != c
    ensures WellGrouped(groups + [Group(c, [m])], categories)
  {
    var after := groups + [Group(c, [m])];
    forall h, k | 0 <= h < |after| && 0 <= k < |after[h].members|
      ensures StatusChannel(after[h].members[k].roles, categories) == Some(after[h].channel)
    {
      if h < |groups| {
        assert after[h] == groups[h];
      }
    }
  }

  /** Appending a member to the group of its own channel. */
  lemma ExtendGroupKeepsWellGrouped(groups: seq<Group>, categories: set<string>, g: nat, m: Member)
    requires WellGrouped(groups, categories)
    requires g < |groups| && StatusChannel(m.roles, categories) == Some(groups[g].channel)
    ensures WellGrouped(groups[g := groups[g].(members := groups[g].members + [m])], categories)
  {
    var after := groups[g := groups[g].(members := groups[g].members + [m])];
    assert forall h :: 0 <= h < |after| ==> after[h].channel == groups[h].channel;
    forall h, k | 0 <= h < |after| && 0 <= k < |after[h].members|
      ensures StatusChannel(after[h].members[k].roles, categories) == Some(after[h].channel)
    {
      if h != g {
        assert after[h] == groups[h];
      } else if k < |groups[g].members| {
        assert after[h].members[k] == groups[g].members[k];
      } else {
        assert after[h].members[k] == m;
      }
    }
  }

  /** The members of all groups together, with repetitions. */
  function AllMembers(groups: seq<Group>): multiset<Member> {
    if groups == [] then multiset{} else AllMembers(groups[..|groups| - 1]) + multiset(groups[|groups| - 1].members)
  }

  /** The candidates that resolve to a status channel, with repetitions. */
  function ChannelCandidates(candidates: seq<Member>, categories: set<string>): multiset<Member> {
    if candidates == [] then multiset{}
    else
      var m := candidates[|candidates| - 1];
      ChannelCandidates(candidates[..|candidates| - 1], categories)
      + (if StatusChannel(m.roles, categories).Some? then multiset{m} else multiset{})
  }

  lemma {:induction false} AllMembersUpdate(groups: seq<Group>, g: nat, ms: seq<Member>)
    requires g < |groups|
    ensures AllMembers(groups[g := groups[g].(members := ms)]) + multiset(groups[g].members)
         == AllMembers(groups) + multiset(ms)
  {
    var n := |groups| - 1;
    var updated := groups[g := groups[g].(members := ms)];
    var before := AllMembers(groups[..n]);
    var mg, mn := multiset(groups[g].members), multiset(groups[n].members);
    assert AllMembers(groups) == before + mn;
    if g == n {
      assert updated[..n] == groups[..n];
      assert AllMembers(updated) == before + multiset(ms);
    } else {
      var rest := groups[..n][g := groups[g].(members := ms)];
      assert updated[..n] == rest;
      assert AllMembers(updated) == AllMembers(rest) + mn;
      assert groups[..n][g] == groups[g];
      AllMembersUpdate(groups[..n], g, ms);
      ShiftUnion(AllMembers(rest), before, mn, mg, multiset(ms));
    }
  }

  /** Adding the same multiset to both sides of an equation of unions. */
  lemma ShiftUnion<T>(r: multiset<T>, b: multiset<T>, mn: multiset<T>, mg: multiset<T>, ms: multiset<T>)
    requires r + mg == b + ms
    ensures (r + mn) + mg == (b + mn) + ms
  {
    assert forall x :: ((r + mn) + mg)[x] == (r + mg)[x] + mn[x];
  }

  /** Adding a member to the groups adds exactly that member. */
  lemma AddToGroupsMembers(groups: seq<Group>, c: ChannelTarget, m: Member)
    ensures AllMembers(AddToGroups(groups, c, m)) == AllMembers(groups) + multiset{m}
  {
    match FindGroup(groups, c)
    case None =>
      assert (groups + [Group(c, [m])])[..|groups|] == groups;
      assert multiset([m]) == multiset{m};
    case Some(g) =>
      var mg := multiset(groups[g].members);
      AllMembersUpdate(groups, g, groups[g].members + [m]);
      assert multiset(groups[g].members + [m]) == mg + multiset{m};
      CancelUnion(AllMembers(AddToGroups(groups, c, m)), AllMembers(groups), mg, multiset{m});
  }

  /** Taking the same multiset away from both sides of an equation of unions. */
  lemma CancelUnion<T>(x: multiset<T>, a: multiset<T>, mg: multiset<T>, d: multiset<T>)
    requires x + mg == a + (mg + d)
    ensures x == a + d
  {
    assert forall y :: x[y] == (x + mg)[y] - mg[y];
  }

  /**
   * Every candidate with a status channel is put in exactly one group, the
   * one for its channel: the groups are well formed, and together they hold
   * exactly the candidates with a channel, each as often as it is a candidate.
   */
  lemma GroupedPartitions(candidates: seq<Member>, categories: set<string>)
    ensures WellGrouped(Grouped(candidates, categories), categories)
    ensures AllMembers(Grouped(candidates, categories)) == ChannelCandidates(candidates, categories)
    ensures TotalSize(Grouped(candidates, categories)) == WithChannel(candidates, categories)
  {
    GroupedWellFormed(candidates, categories);
    GroupedHoldsCandidates(candidates, categories);
  }

  /** The groups are well formed and count the candidates with a channel. */
  lemma {:induction false} GroupedWellFormed(candidates: seq<Member>, categories: set<string>)
    ensures WellGrouped(Grouped(candidates, categories), categories)
    ensures TotalSize(Grouped(candidates, categories)) == WithChannel(candidates, categories)
  {
    if candidates != [] {
      var init := candidates[..|candidates| - 1];
      var m := candidates[|candidates| - 1];
      GroupedWellFormed(init, categories);
      var ch := StatusChannel(m.roles, categories);
      if ch.Some? {
        assert Grouped(candidates, categories) == AddToGroups(Grouped(init, categories), ch.value, m);
        assert WithChannel(candidates, categories) == WithChannel(init, categories) + 1;
        AddKeepsWellGrouped(Grouped(init, categories), categories, ch.value, m);
      } else {
        assert Grouped(candidates, categories) == Grouped(init, categories);
        assert WithChannel(candidates, categories) == WithChannel(init, categories);
      }
    }
  }

  /** The groups hold exactly the candidates with a channel. */
  lemma {:induction false} GroupedHoldsCandidates(candidates: seq<Member>, categories: set<string>)
    ensures AllMembers(Grouped(candidates, categories)) == ChannelCandidates(candidates, categories)
  {
    if candidates != [] {
      var init := candidates[..|candidates| - 1];
      var m := candidates[|candidates| - 1];
      GroupedHoldsCandidates(init, categories);
      var ch := StatusChannel(m.roles, categories);
      if ch.Some? {
        AddToGroupsMembers(Grouped(init, categories), ch.value, m);
      }
    }
  }

  /** The channel-grouping loop of `daily_reminder`. */
  method GroupByChannel(candidates: seq<Member>, categories: set<string>) returns (groups: seq<Group>)
    ensures groups == Grouped(candidates, categories)
  {
    groups := [];
    var i := 0;
    while i < |candidates|
      invariant 0 <= i <= |candidates|
      invariant groups == Grouped(candidates[..i], categories)
    {
      assert candidates[..i + 1][..i] == candidates[..i];
      var target := GetUserStatusChannel(candidates[i].roles, categories);
      if target.Some? {
        var found := FindGroup(groups, target.value);
        if found.Some? {
          var g := found.value;
          groups := groups[g := groups[g].(members := groups[g].members + [candidates[i]])];
        } else {
          groups := groups + [Group(target.value, [candidates[i]])];
        }
      }
      i := i + 1;
    }
    assert candidates[..i] == candidates;
  }

  /** At most 10 members are mentioned in one reminder. */
  const MentionLimit := 10

  /** `member.mention`. */
  function Mention(m: Member): string {
    "<@" + NatToString(m.id) + ">"
  }

  /** The mentions of a list of members, in order. */
  function Mentions(ms: seq<Member>): (r: seq<string>)
    ensures |r| == |ms| && forall i :: 0 <= i < |ms| ==> r[i] == Mention(ms[i])
  {
    if ms == [] then [] else Mentions(ms[..|ms| - 1]) + [Mention(ms[|ms| - 1])]
  }

  /** What one reminder says: the mentions, and how many members it leaves unnamed, if any. */
  datatype Batch = Batch(mentioned: seq<string>, others: Option<nat>)

  /** The batching rule: the first ten members are named; " and N others" only for more than ten. */
  function ReminderBatch(ms: seq<Member>): (b: Batch)
    ensures |b.mentioned| == (if |ms| <= MentionLimit then |ms| else MentionLimit)
    ensures forall i :: 0 <= i < |b.mentioned| ==> b.mentioned[i] == Mention(ms[i])
    ensures b.others.Some? <==> |ms| > MentionLimit
    ensures |b.mentioned| + (if b.others.Some? then b.others.value else 0) == |ms|
  {
    var named := if |ms| <= MentionLimit then ms else ms[..MentionLimit];
    Batch(Mentions(named), if |ms| - MentionLimit > 0 then Some(|ms| - MentionLimit) else None)
  }

  /** The reminder text for a batch. */
  function ReminderText(b: Batch): string {
    "**11 PM Reminder:** " + Join(b.mentioned, ", ")
    + (if b.others.Some? then " and " + NatToString(b.others.value) + " others" else "")
    + " - Submit your daily status update! Deadline is 11:59 PM."
  }

  /** The message sent for one group: its channel and the reminder text for its members. */
  function Message(grp: Group): (ChannelTarget, string) {
    (grp.channel, ReminderText(ReminderBatch(grp.members)))
  }

  /** The count over a prefix grows by the next group's size. */
  lemma TotalSizePrefix(groups: seq<Group>, i: nat)
    requires i < |groups|
    ensures TotalSize(groups[..i + 1]) == TotalSize(groups[..i]) + |groups[i].members|
  {
    assert groups[..i + 1][..i] == groups[..i];
  }

  /**
   * The sending loop of `daily_reminder`: one message per group, and the
   * count of reminded members (every send taken to succeed).
   */
  method SendReminders(groups: seq<Group>) returns (messages: seq<(ChannelTarget, string)>, sent: nat)
    ensures |messages| == |groups|
    ensures forall g :: 0 <= g < |groups| ==> messages[g] == Message(groups[g])
    ensures sent == TotalSize(groups)
  {
    messages := [];
    sent := 0;
    var i := 0;
    while i < |groups|
      invariant 0 <= i <= |groups|
      invariant messages == Map(Message, groups[..i])
      invariant sent == TotalSize(groups[..i])
    {
      TotalSizePrefix(groups, i);
      MapPrefix(Message, groups, i);
      var grp := groups[i];
      messages := messages + [Message(grp)];
      sent := sent + |grp.members|;
      i := i + 1;
    }
    assert groups[..i] == groups;
    MapAll(Message, groups);
  }

  /** Every candidate with a status channel is counted as reminded exactly once. */
  lemma RemindedCount(candidates: seq<Member>, categories: set<string>)
    ensures TotalSize(Grouped(candidates, categories)) == WithChannel(candidates, categories)
    ensures WithChannel(candidates, categories) <= |candidates|
  {
    GroupedPartitions(candidates, categories);
    WithChannelBound(candidates, categories);
  }

  lemma {:induction false} WithChannelBound(candidates: seq<Member>, categories: set<string>)
    ensures WithChannel(candidates, categories) <= |candidates|
  {
    if candidates != [] {
      WithChannelBound(candidates[..|candidates| - 1], categories);
    }
  }
}
