/**
 * The casual-leave history (`casual_leave.json`) and the monthly quota of
 * `ui/forms.py`: per-user bonus days and recorded leaves, the tiered limit
 * (with `float("inf")` as `Unlimited`), usage per calendar month, and the
 * rule that rejects a request that would go over the limit.
 */
module CasualLeave {
  import opened Wrappers
  import opened Calendar
  import opened DateText

  /** A monthly allowance: a number of days, or `float("inf")`. */
  datatype Limit = Finite(days: int) | Unlimited

  /** One recorded leave: start and end as typed, and the number of days. */
  datatype CasualEntry = CasualEntry(start: string, end: string, days: int)

  /** A user's record: `{"bonus_days": ..., "leaves": [...]}`. */
  datatype CasualRecord = CasualRecord(bonusDays: int, leaves: seq<CasualEntry>)

  /** `has_unlimited_casual_leave`. */
  predicate HasUnlimitedCasualLeave(roles: seq<string>) {
    "Core Member" in roles || "4th_years" in roles
  }

  /** `is_3rd_year_core_member`. */
  predicate IsThirdYearCoreMember(roles: seq<string>) {
    "3rd_years" in roles && "Core Member" in roles
  }

  /** `get_casual_leave_limit`: 10 for third-year Core Members, unlimited for other Core Members and 4th-years, else 2. */
  function CasualLeaveLimit(roles: seq<string>): (l: Limit)
    ensures l == Finite(10) <==> IsThirdYearCoreMember(roles)
    ensures l == Unlimited <==> HasUnlimitedCasualLeave(roles) && !IsThirdYearCoreMember(roles)
    ensures l == Finite(2) <==> !HasUnlimitedCasualLeave(roles)
  {
    if "3rd_years" in roles && "Core Member" in roles then Finite(10)
    else if "Core Member" in roles || "4th_years" in roles then Unlimited
    else Finite(2)
  }

  /** The start of an entry parses and falls in the given month of the given year. */
  predicate StartsIn(e: CasualEntry, month: int, year: int) {
    var d := ParseDMY(e.start);
    d.Some? && FromOrdinal(d.value).month == month && FromOrdinal(d.value).year == year
  }

  /** Days used in a month: the `days` of the entries starting in it; unreadable starts are skipped. */
  function UsedDays(leaves: seq<CasualEntry>, month: int, year: int): int {
    if leaves == [] then 0
    else
      var last := leaves[|leaves| - 1];
      UsedDays(leaves[..|leaves| - 1], month, year) + (if StartsIn(last, month, year) then last.days else 0)
  }

  /** Recording an entry adds its days to the month its start falls in and to no other month. */
  lemma UsedDaysAppend(leaves: seq<CasualEntry>, e: CasualEntry, month: int, year: int)
    ensures UsedDays(leaves + [e], month, year) == UsedDays(leaves, month, year) + (if StartsIn(e, month, year) then e.days else 0)
  {
    assert (leaves + [e])[..|leaves|] == leaves;
  }

  /** Entries that do not start in the month do not count towards it. */
  lemma {:induction false} UsedDaysOnlyInMonth(leaves: seq<CasualEntry>, month: int, year: int)
    requires forall i :: 0 <= i < |leaves| ==> !StartsIn(leaves[i], month, year)
    ensures UsedDays(leaves, month, year) == 0
  {
    if leaves != [] {
      UsedDaysOnlyInMonth(leaves[..|leaves| - 1], month, year);
    }
  }

  /** The allowance: the role limit (2 with no roles given), plus the bonus days when finite. */
  function Allowed(roles: Option<seq<string>>, record: Option<CasualRecord>): (l: Limit)
    ensures l.Unlimited? <==> roles.Some? && roles.value != [] && CasualLeaveLimit(roles.value).Unlimited?
    ensures l.Finite? && record.None? ==> l.days == 2 || l.days == 10
  {
    var base := if roles.Some? && roles.value != [] then CasualLeaveLimit(roles.value) else Finite(2);
    if base.Finite? && record.Some? then Finite(base.days + record.value.bonusDays) else base
  }

  /** The outcome of the monthly quota check. */
  datatype Quota = WithinLimit | LimitExceeded(remaining: int)

  /**
   * The check in `CasualLeaveModal.on_submit`: a request of `requested` days
   * is refused exactly when the allowance is finite and would be overrun;
   * the refusal reports what is left, never below zero.
   */
  function CheckQuota(used: int, requested: int, allowed: Limit): (q: Quota)
    ensures q.LimitExceeded? <==> allowed.Finite? && used + requested > allowed.days
    ensures q.LimitExceeded? ==> q.remaining >= 0 && (q.remaining > 0 ==> q.remaining < requested)
    ensures q.LimitExceeded? && used <= allowed.days ==> q.remaining == allowed.days - used
  {
    if allowed.Finite? && used + requested > allowed.days then
      LimitExceeded(if allowed.days - used > 0 then allowed.days - used else 0)
    else WithinLimit
  }

  /** A Core Member who is not a 3rd-year is never refused; a 3rd-year Core Member can be. */
  lemma CoreMemberQuota(roles: seq<string>, used: int, requested: int, bonus: Option<CasualRecord>)
    requires "Core Member" in roles
    ensures !IsThirdYearCoreMember(roles) ==> CheckQuota(used, requested, Allowed(Some(roles), bonus)) == WithinLimit
    ensures IsThirdYearCoreMember(roles) ==> CheckQuota(10, 1, Allowed(Some(roles), None)).LimitExceeded?
  {
  }

  /** The in-memory `casual_leave.json`, keyed by user id. */
  class CasualLeaveStore {
    var history: map<nat, CasualRecord>

    constructor (initial: map<nat, CasualRecord>)
      ensures history == initial
    {
      history := initial;
    }

    /** `get_casual_leave_usage`: (days used in the month, allowance). */
    method GetCasualLeaveUsage(userId: nat, month: int, year: int, roles: Option<seq<string>>) returns (used: int, allowed: Limit)
      ensures allowed == Allowed(roles, if userId in history then Some(history[userId]) else None)
      ensures used == if userId in history then UsedDays(history[userId].leaves, month, year) else 0
    {
      allowed := if roles.Some? && roles.value != [] then CasualLeaveLimit(roles.value) else Finite(2);
      used := 0;
      if userId in history {
        if allowed.Finite? {
          allowed := Finite(allowed.days + history[userId].bonusDays);
        }
        var leaves := history[userId].leaves;
        var i := 0;
        while i < |leaves|
          invariant 0 <= i <= |leaves|
          invariant used == UsedDays(leaves[..i], month, year)
        {
          assert leaves[..i + 1] == leaves[..i] + [leaves[i]];
          UsedDaysAppend(leaves[..i], leaves[i], month, year);
          if StartsIn(leaves[i], month, year) {
            used := used + leaves[i].days;
          }
          i := i + 1;
        }
        assert leaves[..i] == leaves;
      }
    }

    /** `record_casual_leave`: appends one entry, creating an empty record for a new user. */
    method RecordCasualLeave(userId: nat, start: string, end: string, days: int)
      modifies this
      ensures history == old(history)[userId :=
        var r := if userId in old(history) then old(history)[userId] else CasualRecord(0, []);
        r.(leaves := r.leaves + [CasualEntry(start, end, days)])]
    {
      var r := if userId in history then history[userId] else CasualRecord(0, []);
      history := history[userId := r.(leaves := r.leaves + [CasualEntry(start, end, days)])];
    }
  }
}
