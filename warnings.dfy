/**
 * The daily-warning rules of `core/warnings.py`: who is exempt, when a
 * member counts as on leave, the chain of checks that decides whether a
 * member gets a warning for a day, and the monthly warning counter
 * (`warnings.json`, keys "<user id>-<YYYY-MM>") with its probation
 * escalation and monthly reset.
 */
module Warnings {
  import opened Wrappers
  import opened Calendar
  import opened Text
  import opened DateText
  import opened Members
  import opened TeamRoles
  import opened Ledger
  import opened UserStats
  import opened CasualLeave
  import opened PendingRequests
  import opened Validators

  // ---------------------------------------------------------------------
  // Exemption and leave

  /** `is_core_member_or_exempt`: Core Members and 4th-years are never warned. */
  predicate IsCoreMemberOrExempt(roles: seq<string>) {
    "Core Member" in roles || "4th_years" in roles
  }

  /** The members exempt from warnings are exactly those with unlimited casual leave. */
  lemma ExemptIffUnlimitedCasualLeave(roles: seq<string>)
    ensures IsCoreMemberOrExempt(roles) <==> HasUnlimitedCasualLeave(roles)
    ensures IsCoreMemberOrExempt(roles) <==> CasualLeaveLimit(roles) != Finite(2)
  {
  }

  /** Both ends parse as DD-MM-YYYY and `day` lies between them, inclusive. */
  predicate Covers(start: string, end: string, day: Day) {
    ParseDMY(start).Some? && ParseDMY(end).Some? && ParseDMY(start).value <= day <= ParseDMY(end).value
  }

  /** A request of this user, approved or auto-approved, whose range covers the day. */
  predicate RequestCovers(r: LeaveRequest, userId: nat, day: Day) {
    r.memberId == userId && (r.status == Approved || r.status == AutoApproved) && Covers(r.start, r.end, day)
  }

  /**
   * On leave: some approved request covers the day, or some recorded casual
   * leave of the user does; entries whose dates do not parse are skipped.
   */
  predicate OnLeave(requests: seq<LeaveRequest>, casual: map<nat, CasualRecord>, userId: nat, day: Day) {
    (exists i :: 0 <= i < |requests| && RequestCovers(requests[i], userId, day))
    || (userId in casual && exists j :: 0 <= j < |casual[userId].leaves| && Covers(casual[userId].leaves[j].start, casual[userId].leaves[j].end, day))
  }

  /** `user_has_leave_on_date`: the request list first, then the casual-leave history. */
  method UserHasLeaveOnDate(requests: seq<LeaveRequest>, casual: map<nat, CasualRecord>, userId: nat, day: Day) returns (onLeave: bool)
    ensures onLeave <==> OnLeave(requests, casual, userId, day)
  {
    onLeave := AnyRequestCovers(requests, userId, day);
    if !onLeave && userId in casual {
      onLeave := AnyLeaveCovers(casual[userId].leaves, day);
    }
  }

  /** The request loop of `user_has_leave_on_date`. */
  method AnyRequestCovers(requests: seq<LeaveRequest>, userId: nat, day: Day) returns (found: bool)
    ensures found <==> exists i :: 0 <= i < |requests| && RequestCovers(requests[i], userId, day)
  {
    var i := 0;
    while i < |requests|
      invariant 0 <= i <= |requests|
      invariant forall k :: 0 <= k < i ==> !RequestCovers(requests[k], userId, day)
    {
      var r := requests[i];
      if r.memberId == userId && (r.status == Approved || r.status == AutoApproved) && Covers(r.start, r.end, day) {
        return true;
      }
      NoRequestCoversStep(requests, i, userId, day);
      i := i + 1;
    }
    return false;
  }

  /** The casual-leave loop of `user_has_leave_on_date`. */
  method AnyLeaveCovers(leaves: seq<CasualEntry>, day: Day) returns (found: bool)
    ensures found <==> exists j :: 0 <= j < |leaves| && Covers(leaves[j].start, leaves[j].end, day)
  {
    var j := 0;
    while j < |leaves|
      invariant 0 <= j <= |leaves|
      invariant forall k :: 0 <= k < j ==> !Covers(leaves[k].start, leaves[k].end, day)
    {
      if Covers(leaves[j].start, leaves[j].end, day) {
        return true;
      }
      NoLeaveCoversStep(leaves, j, day);
      j := j + 1;
    }
    return false;
  }

  /** One more request that does not cover the day. */
  lemma NoRequestCoversStep(requests: seq<LeaveRequest>, i: nat, userId: nat, day: Day)
    requires i < |requests| && !RequestCovers(requests[i], userId, day)
    requires forall k :: 0 <= k < i ==> !RequestCovers(requests[k], userId, day)
    ensures forall k :: 0 <= k < i + 1 ==> !RequestCovers(requests[k], userId, day)
  {
  }

  /** One more casual leave that does not cover the day. */
  lemma NoLeaveCoversStep(leaves: seq<CasualEntry>, j: nat, day: Day)
    requires j < |leaves| && !Covers(leaves[j].start, leaves[j].end, day)
    requires forall k :: 0 <= k < j ==> !Covers(leaves[k].start, leaves[k].end, day)
    ensures forall k :: 0 <= k < j + 1 ==> !Covers(leaves[k].start, leaves[k].end, day)
  {
  }

  // ---------------------------------------------------------------------
  // The decision

  /** Which check of `should_give_warning` settled the question. */
  datatype WarningDecision =
    | SkipBot
    | SkipNotCurrentTeam
    | SkipExempt
    | SkipMissingRoles
    | SkipOnLeave
    | SkipSubmitted
    | Warn

  /**
   * `should_give_warning`: bots, members without the current-team role,
   * exempt members, members without a team and a year role, members on
   * leave and members who submitted are skipped, in that order; everyone
   * else is warned.
   */
  method ShouldGiveWarning(m: Member, users: map<nat, UserLedger>, requests: seq<LeaveRequest>,
                           casual: map<nat, CasualRecord>, day: Day) returns (decision: WarningDecision)
    ensures decision == Warn <==>
      NeedsReminder(users, m, FormatDMY(day)) && !IsCoreMemberOrExempt(m.roles)
      && ValidateUserRoles(m.roles).Success? && !OnLeave(requests, casual, m.id, day)
    ensures decision == SkipBot <==> m.bot
    ensures decision == SkipNotCurrentTeam <==> !m.bot && !HasCurrentTeamRole(m.roles)
    ensures decision == SkipExempt <==> !m.bot && HasCurrentTeamRole(m.roles) && IsCoreMemberOrExempt(m.roles)
    ensures decision == SkipMissingRoles <==>
      !m.bot && HasCurrentTeamRole(m.roles) && !IsCoreMemberOrExempt(m.roles) && ValidateUserRoles(m.roles).Failure?
    ensures decision == SkipOnLeave <==>
      !m.bot && HasCurrentTeamRole(m.roles) && !IsCoreMemberOrExempt(m.roles) && ValidateUserRoles(m.roles).Success?
      && OnLeave(requests, casual, m.id, day)
    ensures decision == SkipSubmitted <==>
      !m.bot && HasCurrentTeamRole(m.roles) && !IsCoreMemberOrExempt(m.roles) && ValidateUserRoles(m.roles).Success?
      && !OnLeave(requests, casual, m.id, day) && HasSubmissionOn(users, m.id, FormatDMY(day))
  {
    if m.bot {
      return SkipBot;
    }
    if !HasCurrentTeamRole(m.roles) {
      return SkipNotCurrentTeam;
    }
    if IsCoreMemberOrExempt(m.roles) {
      return SkipExempt;
    }
    if ValidateUserRoles(m.roles).Failure? {
      return SkipMissingRoles;
    }
    var onLeave := UserHasLeaveOnDate(requests, casual, m.id, day);
    if onLeave {
      return SkipOnLeave;
    }
    if HasSubmissionOn(users, m.id, FormatDMY(day)) {
      return SkipSubmitted;
    }
    return Warn;
  }

  /** An approved leave covering the day protects its member from a warning that day. */
  lemma ApprovedLeaveProtects(requests: seq<LeaveRequest>, casual: map<nat, CasualRecord>, userId: nat, day: Day, k: nat)
    requires k < |requests| && requests[k].memberId == userId && requests[k].status == Approved
    requires ParseDMY(requests[k].start).Some? && ParseDMY(requests[k].end).Some?
    requires ParseDMY(requests[k].start).value <= day <= ParseDMY(requests[k].end).value
    ensures OnLeave(requests, casual, userId, day)
  {
    assert RequestCovers(requests[k], userId, day);
  }

  /** A pending or denied request does not protect anyone. */
  lemma UnapprovedRequestsIgnored(requests: seq<LeaveRequest>, casual: map<nat, CasualRecord>, userId: nat, day: Day)
    requires forall i :: 0 <= i < |requests| ==> requests[i].status == Pending || requests[i].status == Denied
    ensures OnLeave(requests, casual, userId, day) <==> OnLeave([], casual, userId, day)
  {
  }

  // ---------------------------------------------------------------------
  // The warning counter

  const FirstProbationRole := "1st Probation"
  const SecondProbationRole := "2nd Probation"

  /** The key `give_warning` counts under: "<id>-<YYYY-MM>" of the current month. */
  function WarningKey(userId: nat, now: Day): string {
    NatToString(userId) + "-" + FormatYM(now)
  }

  /** Warning keys of different users never collide, whatever the months. */
  lemma WarningKeysDistinct(a: nat, b: nat, da: Day, db: Day)
    requires a != b
    ensures WarningKey(a, da) != WarningKey(b, db)
  {
    var ka, kb := WarningKey(a, da), WarningKey(b, db);
    if ka == kb {
      var sa, sb := NatToString(a), NatToString(b);
      assert |sa| == |sb|;
      assert sa == ka[..|sa|] && sb == kb[..|sb|];
      NatToStringValue(a);
      NatToStringValue(b);
      assert false;
    }
  }

  /**
   * The key `get_user_warning_count` reads: the month and year given, but
   * when either is missing each falsy one is replaced by the current one;
   * the year is spelled by `str`, the month with two digits.
   */
  function QueryKey(userId: nat, month: Option<nat>, year: Option<nat>, now: Day): string {
    var c := FromOrdinal(now);
    var m := if month.Some? && year.Some? then month.value
             else if month.None? || month.value == 0 then c.month else month.value;
    var y := if month.Some? && year.Some? then year.value
             else if year.None? || year.value == 0 then c.year else year.value;
    NatToString(userId) + "-" + NatToString(y) + "-" + Format02(m)
  }

  /** `get_user_warning_count`: the stored count, 0 when there is none. */
  function GetUserWarningCount(warnings: map<string, int>, userId: nat, month: Option<nat>, year: Option<nat>, now: Day): (n: int)
    ensures QueryKey(userId, month, year, now) !in warnings ==> n == 0
    ensures QueryKey(userId, month, year, now) in warnings ==> n == warnings[QueryKey(userId, month, year, now)]
  {
    var key := QueryKey(userId, month, year, now);
    if key in warnings then warnings[key] else 0
  }

  /**
   * From year 1000 on, asking for the current month reads the key
   * `give_warning` writes, whether the month and year are left out or
   * spelled out.
   */
  lemma QueryReadsWarningKey(userId: nat, now: Day)
    requires FromOrdinal(now).year >= 1000
    ensures QueryKey(userId, None, None, now) == WarningKey(userId, now)
    ensures QueryKey(userId, Some(FromOrdinal(now).month), Some(FromOrdinal(now).year), now) == WarningKey(userId, now)
  {
    var c := FromOrdinal(now);
    NatToStringFourDigits(c.year);
    Format02IsPad2(c.month);
    assert FormatYM(now) == Pad4(c.year) + "-" + Pad2(c.month);
  }

  /**
   * From year 1000 on, a warning given now is read back by the query for
   * the current month as the count `give_warning` stored, one more than
   * before, and no other user's count changes.
   */
  lemma WarningReadBack(warnings: map<string, int>, userId: nat, other: nat, now: Day)
    requires FromOrdinal(now).year >= 1000 && other != userId
    ensures var key := WarningKey(userId, now);
      var count := (if key in warnings then warnings[key] else 0) + 1;
      var after := warnings[key := count];
      GetUserWarningCount(after, userId, None, None, now) == count
      && count == GetUserWarningCount(warnings, userId, None, None, now) + 1
      && GetUserWarningCount(after, other, None, None, now) == GetUserWarningCount(warnings, other, None, None, now)
  {
    QueryReadsWarningKey(userId, now);
    QueryReadsWarningKey(other, now);
    WarningKeysDistinct(userId, other, now, now);
  }

  /** What `give_warning` does to the member's roles. */
  datatype Escalation = NoEscalation | FirstProbation | SecondProbation(dropFirst: bool)

  /**
   * The probation rule: the third warning of a month adds "1st Probation"
   * when the guild has it; every later one adds "2nd Probation" when the
   * guild has it, first taking away a held "1st Probation".
   */
  function EscalationFor(count: int, roles: seq<string>, firstExists: bool, secondExists: bool): (e: Escalation)
    ensures e.FirstProbation? <==> count == 3 && firstExists
    ensures e.SecondProbation? <==> count > 3 && secondExists
    ensures e.SecondProbation? ==> (e.dropFirst <==> firstExists && FirstProbationRole in roles)
  {
    if count == 3 && firstExists then FirstProbation
    else if count > 3 && secondExists then SecondProbation(firstExists && FirstProbationRole in roles)
    else NoEscalation
  }

  /** `roles` without any role of the given name. */
  function Without(roles: seq<string>, name: string): (r: seq<string>)
    ensures name !in r
    ensures forall x :: x in r <==> x in roles && x != name
  {
    if roles == [] then []
    else
      var init := Without(roles[..|roles| - 1], name);
      assert roles == roles[..|roles| - 1] + [roles[|roles| - 1]];
      if roles[|roles| - 1] == name then init else init + [roles[|roles| - 1]]
  }

  /** `member.add_roles(role)`: a role already held is not added twice. */
  function WithRole(roles: seq<string>, name: string): (r: seq<string>)
    ensures forall x :: x in r <==> x in roles || x == name
  {
    if name in roles then roles else roles + [name]
  }

  /** The member's roles after the escalation. */
  function RolesAfter(roles: seq<string>, e: Escalation): seq<string> {
    match e
    case NoEscalation => roles
    case FirstProbation => WithRole(roles, FirstProbationRole)
    case SecondProbation(dropFirst) =>
      WithRole(if dropFirst then Without(roles, FirstProbationRole) else roles, SecondProbationRole)
  }

  /**
   * Nobody is put on probation before the third warning of a month; from the
   * fourth on, a member of a guild with both roles ends up on 2nd probation
   * and no longer on 1st.
   */
  lemma ProbationThresholds(count: int, roles: seq<string>, firstExists: bool, secondExists: bool)
    ensures count < 3 ==> RolesAfter(roles, EscalationFor(count, roles, firstExists, secondExists)) == roles
    ensures count == 3 && firstExists ==> FirstProbationRole in RolesAfter(roles, EscalationFor(count, roles, firstExists, secondExists))
    ensures count > 3 && firstExists && secondExists ==>
      var after := RolesAfter(roles, EscalationFor(count, roles, firstExists, secondExists));
      SecondProbationRole in after && FirstProbationRole !in after
  {
  }

  /** The months whose warnings survive a reset: keys ending in "-<YYYY-MM>" of the current month. */
  function CurrentMonthOnly(warnings: map<string, int>, now: Day): (kept: map<string, int>)
    ensures kept.Keys <= warnings.Keys
    ensures forall k :: k in kept ==> kept[k] == warnings[k]
  {
    map k | k in warnings && EndsWith(k, "-" + FormatYM(now)) :: warnings[k]
  }

  /** Resetting twice in a month is resetting once. */
  lemma ResetIdempotent(warnings: map<string, int>, now: Day)
    ensures CurrentMonthOnly(CurrentMonthOnly(warnings, now), now) == CurrentMonthOnly(warnings, now)
  {
  }

  /**
   * A reset keeps every user's count for the current month and drops every
   * user's count for any other month.
   */
  lemma ResetKeepsOnlyCurrentMonth(warnings: map<string, int>, now: Day, userId: nat, d: Day)
    ensures WarningKey(userId, now) in warnings ==>
      WarningKey(userId, now) in CurrentMonthOnly(warnings, now)
      && CurrentMonthOnly(warnings, now)[WarningKey(userId, now)] == warnings[WarningKey(userId, now)]
    ensures FormatYM(d) != FormatYM(now) ==> WarningKey(userId, d) !in CurrentMonthOnly(warnings, now)
  {
    KeySuffix(userId, FormatYM(d), FormatYM(now));
    KeySuffix(userId, FormatYM(now), FormatYM(now));
  }

  /** A key "<id>-<month>" ends in "-<other month>" exactly when the months agree. */
  lemma KeySuffix(userId: nat, ym: string, other: string)
    requires |ym| == 7 && |other| == 7
    ensures EndsWith(NatToString(userId) + "-" + ym, "-" + other) <==> ym == other
  {
    var key := NatToString(userId) + "-" + ym;
    assert key[|key| - 8..] == "-" + ym;
    assert ("-" + ym)[1..] == ym && ("-" + other)[1..] == other;
  }

  /** The subset of a finite set is no larger. */
  lemma {:induction false} SubsetCardinality(a: set<string>, b: set<string>)
    requires a <= b
    ensures |a| <= |b|
    decreases |b|
  {
    if a != {} {
      var x :| x in a;
      SubsetCardinality(a - {x}, b - {x});
    }
  }

  /** The in-memory `warnings.json`. */
  class WarningStore {
    var warnings: map<string, int>

    constructor (initial: map<string, int>)
      ensures warnings == initial
    {
      warnings := initial;
    }

    /**
     * `give_warning`: one more warning for the member this month, and the
     * probation escalation for the new count; nothing else is touched.
     */
    method GiveWarning(memberId: nat, roles: seq<string>, now: Day, firstExists: bool, secondExists: bool)
      returns (count: int, escalation: Escalation)
      modifies this
      ensures var key := WarningKey(memberId, now);
        count == (if key in old(warnings) then old(warnings)[key] else 0) + 1
        && warnings == old(warnings)[key := count]
      ensures escalation == EscalationFor(count, roles, firstExists, secondExists)
      ensures FromOrdinal(now).year >= 1000 ==> GetUserWarningCount(warnings, memberId, None, None, now) == count
    {
      var key := WarningKey(memberId, now);
      count := (if key in warnings then warnings[key] else 0) + 1;
      warnings := warnings[key := count];
      if FromOrdinal(now).year >= 1000 {
        QueryReadsWarningKey(memberId, now);
      }
      if count == 3 && firstExists {
        escalation := FirstProbation;
      } else if count > 3 && secondExists {
        escalation := SecondProbation(firstExists && FirstProbationRole in roles);
      } else {
        escalation := NoEscalation;
      }
    }

    /**
     * `reset_monthly_warnings`: keeps the current month's keys and reports
     * how many keys were dropped.
     */
    method ResetMonthlyWarnings(now: Day) returns (cleared: int)
      modifies this
      ensures warnings == CurrentMonthOnly(old(warnings), now)
      ensures cleared == |old(warnings)| - |warnings| && cleared >= 0
    {
      var suffix := "-" + FormatYM(now);
      var remaining := warnings.Keys;
      var kept: map<string, int> := map[];
      while remaining != {}
        invariant remaining <= warnings.Keys
        invariant kept == map k | k in warnings && k !in remaining && EndsWith(k, suffix) :: warnings[k]
        decreases |remaining|
      {
        var k :| k in remaining;
        if EndsWith(k, suffix) {
          kept := kept[k := warnings[k]];
        }
        remaining := remaining - {k};
      }
      assert kept == CurrentMonthOnly(warnings, now);
      SubsetCardinality(kept.Keys, warnings.Keys);
      cleared := |warnings| - |kept|;
      warnings := kept;
    }
  }
}
