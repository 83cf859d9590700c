/**
 * `core/user_stats.py`: the `users.json` document as a mutable store of
 * ledgers keyed by user id, recording status updates and answering the
 * per-day, per-week, per-month and per-range queries over it. The loops of
 * the source are kept; each method is proved against the specification
 * functions of module `Ledger`.
 */
module UserStats {
  import opened Wrappers
  import opened Calendar
  import opened DateText
  import opened Members
  import opened TeamRoles
  import opened CasualLeave
  import opened Ledger

  /** The ledger a status update is recorded into: the stored one, or a fresh one. */
  function LedgerOf(users: map<nat, UserLedger>, id: nat, username: string): UserLedger {
    if id in users then users[id] else NewLedger(username)
  }

  /** A key not used by any entry of the user's ledger (the `uuid4()` of a new submission). */
  predicate FreshKey(users: map<nat, UserLedger>, id: nat, key: string) {
    key != "" && (id in users ==> forall j :: 0 <= j < |users[id].subs| ==> users[id].subs[j].id != key)
  }

  /** Every stored ledger is consistent. */
  predicate AllConsistent(users: map<nat, UserLedger>) {
    forall id :: id in users ==> Consistent(users[id])
  }

  /** Who `get_users_without_submission_for_date` reports: human current-team members with no entry for the date. */
  predicate NeedsReminder(users: map<nat, UserLedger>, m: Member, date: string) {
    !m.bot && HasCurrentTeamRole(m.roles) && !HasSubmissionOn(users, m.id, date)
  }

  function WithoutSubmission(users: map<nat, UserLedger>, members: seq<Member>, date: string): (r: seq<Member>)
    ensures |r| <= |members|
  {
    if members == [] then []
    else
      var init := WithoutSubmission(users, members[..|members| - 1], date);
      var m := members[|members| - 1];
      if NeedsReminder(users, m, date) then init + [m] else init
  }

  /** A member is reported exactly when they are in the list and need a reminder. */
  lemma {:induction false} WithoutSubmissionMembers(users: map<nat, UserLedger>, members: seq<Member>, date: string)
    ensures forall m :: m in WithoutSubmission(users, members, date) <==> m in members && NeedsReminder(users, m, date)
  {
    if members != [] {
      var init := members[..|members| - 1];
      WithoutSubmissionMembers(users, init, date);
      assert members == init + [members[|members| - 1]];
    }
  }

  /** Recording a status update for a member on a date removes them from that date's report. */
  lemma RecordedNotReported(users: map<nat, UserLedger>, members: seq<Member>, m: Member, username: string,
                            d: Day, sub: Submission, key: string)
    requires sub.date == FormatDMY(d)
    ensures var after := users[m.id := RecordInLedger(LedgerOf(users, m.id, username), username, FormatDMY(d), sub, key)];
      m !in WithoutSubmission(after, members, FormatDMY(d))
  {
    var after := users[m.id := RecordInLedger(LedgerOf(users, m.id, username), username, FormatDMY(d), sub, key)];
    RecordedIsFound(LedgerOf(users, m.id, username), username, FormatDMY(d), sub, key);
    WithoutSubmissionMembers(after, members, FormatDMY(d));
  }

  /** Recording into one ledger of a consistent store leaves every ledger consistent. */
  lemma RecordKeepsAllConsistent(users: map<nat, UserLedger>, id: nat, username: string, date: string,
                                 sub: Submission, key: string)
    requires AllConsistent(users) && FreshKey(users, id, key) && sub.date == date
    ensures AllConsistent(users[id := RecordInLedger(LedgerOf(users, id, username), username, date, sub, key)])
  {
    RecordPreservesConsistent(LedgerOf(users, id, username), username, date, sub, key);
  }

  /** The in-memory `users.json`, keyed by user id. */
  class UserStore {
    var users: map<nat, UserLedger>

    constructor (initial: map<nat, UserLedger>)
      ensures users == initial
    {
      users := initial;
    }

    /**
     * `record_status_update`: normalises the date (a bad date is the
     * ValueError and changes nothing), then records the submission in the
     * user's ledger, overriding the first entry with that date if it has a
     * non-empty key and appending under `key` otherwise.
     */
    method RecordStatusUpdate(userId: nat, username: string, date: DateInput, hours: real, description: string,
                              blockers: string, isWfh: bool, isLate: bool, key: string, now: int)
      returns (result: Result<(), string>)
      requires FreshKey(users, userId, key)
      modifies this
      ensures NormalizeDate(date).Failure? ==> result.Failure? && users == old(users)
      ensures NormalizeDate(date).Success? ==> (result.Success? &&
        var ds := NormalizeDate(date).value;
        users == old(users)[userId := RecordInLedger(LedgerOf(old(users), userId, username), username, ds,
                                                       Submission(ds, hours, description, blockers, isWfh, isLate, now), key)])
      ensures AllConsistent(old(users)) ==> AllConsistent(users)
    {
      var normalized := NormalizeDate(date);
      if normalized.Failure? {
        return Failure(normalized.error);
      }
      var ds := normalized.value;
      RecordOn(userId, username, ds, Submission(ds, hours, description, blockers, isWfh, isLate, now), key);
      return Success(());
    }

    /** The recording step of `record_status_update`, for a normalised date. */
    method RecordOn(userId: nat, username: string, ds: string, sub: Submission, key: string)
      requires FreshKey(users, userId, key) && sub.date == ds
      modifies this
      ensures users == old(users)[userId := RecordInLedger(LedgerOf(old(users), userId, username), username, ds, sub, key)]
      ensures AllConsistent(old(users)) ==> AllConsistent(users)
    {
      var l := if userId in users then users[userId] else NewLedger(username);
      var existing := FindExisting(l.subs, ds);
      var n: UserLedger;
      if existing.Some? && l.subs[existing.value].id != "" {
        var k := existing.value;
        n := l.(username := username, subs := l.subs[k := SubEntry(l.subs[k].id, sub)],
                totalHours := l.totalHours - l.subs[k].sub.hours + sub.hours);
      } else {
        n := l.(username := username, subs := l.subs + [SubEntry(key, sub)],
                totalSubmissions := l.totalSubmissions + 1,
                lateSubmissions := l.lateSubmissions + (if sub.isLate then 1 else 0),
                totalHours := l.totalHours + sub.hours);
      }
      assert n == RecordInLedger(l, username, ds, sub, key);
      if AllConsistent(users) {
        RecordKeepsAllConsistent(users, userId, username, ds, sub, key);
      }
      users := users[userId := n];
    }

    /** The search loop of `record_status_update`: the first entry with the date. */
    static method FindExisting(subs: seq<SubEntry>, ds: string) returns (existing: Option<nat>)
      ensures existing == FirstWithDate(subs, ds)
    {
      var i := 0;
      while i < |subs|
        invariant 0 <= i <= |subs|
        invariant forall j :: 0 <= j < i ==> subs[j].sub.date != ds
      {
        if subs[i].sub.date == ds {
          return Some(i);
        }
        i := i + 1;
      }
      return None;
    }

    /** `get_users_without_submission_for_date`. */
    method GetUsersWithoutSubmissionForDate(members: seq<Member>, d: Day) returns (nonSubmitters: seq<Member>)
      ensures nonSubmitters == WithoutSubmission(users, members, FormatDMY(d))
    {
      nonSubmitters := WithoutSubmissionOn(users, members, FormatDMY(d));
    }

    /** The member loop of `get_users_without_submission_for_date`, for the formatted date. */
    static method WithoutSubmissionOn(users: map<nat, UserLedger>, members: seq<Member>, ds: string)
      returns (nonSubmitters: seq<Member>)
      ensures nonSubmitters == WithoutSubmission(users, members, ds)
    {
      nonSubmitters := [];
      var i := 0;
      while i < |members|
        invariant 0 <= i <= |members|
        invariant nonSubmitters == WithoutSubmission(users, members[..i], ds)
      {
        assert members[..i + 1][..i] == members[..i];
        var m := members[i];
        if !m.bot && HasCurrentTeamRole(m.roles) {
          var has := false;
          if m.id in users {
            var subs := users[m.id].subs;
            var j := 0;
            while j < |subs|
              invariant 0 <= j <= |subs|
              invariant forall k :: 0 <= k < j ==> subs[k].sub.date != ds
            {
              if subs[j].sub.date == ds {
                has := true;
                break;
              }
              j := j + 1;
            }
          }
          if !has {
            nonSubmitters := nonSubmitters + [m];
          }
        }
        i := i + 1;
      }
      assert members[..i] == members;
    }

    /** `get_user_submissions_for_date`: the user's entries for the date, in order. */
    method GetUserSubmissionsForDate(userId: nat, d: Day) returns (found: seq<Submission>)
      ensures found == if userId in users then SubmissionsOn(users[userId].subs, FormatDMY(d)) else []
      ensures found != [] <==> HasSubmissionOn(users, userId, FormatDMY(d))
      ensures userId in users && Consistent(users[userId]) ==> |found| <= 1
    {
      var ds := FormatDMY(d);
      found := [];
      if userId !in users {
        return;
      }
      var subs := users[userId].subs;
      var i := 0;
      while i < |subs|
        invariant 0 <= i <= |subs|
        invariant found == SubmissionsOn(subs[..i], ds)
      {
        assert subs[..i + 1][..i] == subs[..i];
        if subs[i].sub.date == ds {
          found := found + [subs[i].sub];
        }
        i := i + 1;
      }
      assert subs[..i] == subs;
      SubmissionsOnEmpty(subs, ds);
      if Consistent(users[userId]) {
        SubmissionsOnAtMostOne(subs, ds);
      }
    }

    /**
     * `get_weekly_stats` from `weekStart`: seven breakdown lines (date, hours,
     * weekday name) for the days `weekStart .. weekStart + 6`, their total,
     * the number of entries on those days, whether the 32-hour target is met
     * and the hours still missing; an unknown user gets the fixed empty report.
     */
    method GetWeeklyStats(userId: nat, weekStart: Day) returns (stats: WeeklyStats)
      requires userId in users ==> weekStart + 6 <= MaxOrdinal
      ensures userId !in users ==> stats == UnknownUserWeek
      ensures userId in users ==> |stats.dailyBreakdown| == 7
      ensures userId in users ==> forall i :: 0 <= i < 7 ==> stats.dailyBreakdown[i] == DayLine(users[userId].subs, weekStart, i)
      ensures userId in users ==> stats.totalHours == HoursOver(users[userId].subs, WeekDates(weekStart, 7))
      ensures stats.totalHours == LinesHours(stats.dailyBreakdown)
      ensures userId in users ==> stats.submissionsCount == CountOver(users[userId].subs, WeekDates(weekStart, 7))
      ensures stats.targetMet <==> stats.totalHours >= WeeklyTarget
      ensures stats.remainingHours == if WeeklyTarget - stats.totalHours > 0.0 then WeeklyTarget - stats.totalHours else 0.0
      ensures userId in users && Consistent(users[userId]) ==> stats.submissionsCount <= 7
    {
      if userId !in users {
        return UnknownUserWeek;
      }
      var subs := users[userId].subs;
      var dates := WeekDates(weekStart, 7);
      var breakdown, weekly, count := WeekTotals(subs, weekStart, dates);
      forall i | 0 <= i < 7
        ensures breakdown[i] == DayLine(subs, weekStart, i)
      {
        BreakdownAt(subs, weekStart, dates, i);
        WeekDatesAt(weekStart, 7, i);
      }
      if Consistent(users[userId]) {
        WeekAtMostSeven(users[userId], weekStart);
      }
      stats := WeeklyStats(weekly, count, weekly >= WeeklyTarget, breakdown,
                           if WeeklyTarget - weekly > 0.0 then WeeklyTarget - weekly else 0.0);
    }

    /**
     * The day loop of `get_weekly_stats`, over the spellings `dates` of the
     * days from `weekStart`: the breakdown lines, the hours and the entries.
     */
    static method WeekTotals(subs: seq<SubEntry>, weekStart: Day, dates: seq<string>)
      returns (breakdown: seq<DailyHours>, weekly: real, count: nat)
      requires weekStart + |dates| - 1 <= MaxOrdinal
      ensures breakdown == Breakdown(subs, weekStart, dates)
      ensures weekly == HoursOver(subs, dates) == LinesHours(breakdown)
      ensures count == CountOver(subs, dates)
    {
      weekly, count, breakdown := 0.0, 0, [];
      for i := 0 to |dates|
        invariant breakdown == Breakdown(subs, weekStart, dates[..i])
        invariant weekly == HoursOver(subs, dates[..i]) == LinesHours(breakdown)
        invariant count == CountOver(subs, dates[..i])
      {
        var ds := dates[i];
        var dayHours, dayCount := DaySums(subs, ds);
        var line := DailyHours(ds, dayHours, DayName(weekStart + i));
        WeekStep(subs, weekStart, dates, i);
        LinesHoursAppend(breakdown, line);
        weekly := weekly + dayHours;
        count := count + dayCount;
        breakdown := breakdown + [line];
      }
      assert dates[..|dates|] == dates;
    }

    /** The inner loop of `get_weekly_stats`: hours and entries stored for one date. */
    static method DaySums(subs: seq<SubEntry>, ds: string) returns (hours: real, count: nat)
      ensures hours == DayHours(subs, ds) && count == DayCount(subs, ds)
    {
      hours, count := 0.0, 0;
      var j := 0;
      while j < |subs|
        invariant 0 <= j <= |subs|
        invariant hours == DayHours(subs[..j], ds) && count == DayCount(subs[..j], ds)
      {
        assert subs[..j + 1][..j] == subs[..j];
        if subs[j].sub.date == ds {
          hours := hours + subs[j].sub.hours;
          count := count + 1;
        }
        j := j + 1;
      }
      assert subs[..j] == subs;
    }

    /**
     * `get_monthly_stats`: over the entries whose date parses to the month
     * (unparsable dates are skipped), their hours, their number, the late ones
     * and the number of distinct dates.
     */
    method GetMonthlyStats(userId: nat, month: int, year: int) returns (stats: MonthlyStats)
      ensures userId !in users ==> stats == MonthlyStats(0.0, 0, 0, 0)
      ensures userId in users ==>
        var subs := users[userId].subs;
        stats == MonthlyStats(MonthHours(subs, month, year), MonthCount(subs, month, year),
                              MonthLate(subs, month, year), |MonthDates(subs, month, year)|)
      ensures stats.daysWorked <= stats.totalSubmissions && stats.lateSubmissions <= stats.totalSubmissions
      ensures userId in users && Consistent(users[userId]) ==> stats.daysWorked == stats.totalSubmissions
    {
      if userId !in users {
        return MonthlyStats(0.0, 0, 0, 0);
      }
      var subs := users[userId].subs;
      var hours := 0.0;
      var count, late := 0, 0;
      var days: set<string> := {};
      var i := 0;
      while i < |subs|
        invariant 0 <= i <= |subs|
        invariant hours == MonthHours(subs[..i], month, year) && count == MonthCount(subs[..i], month, year)
        invariant late == MonthLate(subs[..i], month, year) && days == MonthDates(subs[..i], month, year)
      {
        MonthStep(subs, month, year, i);
        var s := subs[i].sub;
        if InMonth(s, month, year) {
          hours := hours + s.hours;
          count := count + 1;
          days := days + {s.date};
          if s.isLate {
            late := late + 1;
          }
        }
        i := i + 1;
      }
      assert subs[..i] == subs;
      MonthCounts(subs, month, year);
      MonthLateBound(subs, month, year);
      stats := MonthlyStats(hours, count, late, |days|);
    }

    /**
     * `count_user_statistics_for_range` over `from .. to` inclusive, with the
     * casual-leave history passed in: entries and hours whose date parses into
     * the range, the hours of the late ones, and the casual leaves starting in it.
     */
    method CountUserStatisticsForRange(userId: nat, from: Day, to: Day, casual: map<nat, CasualRecord>)
      returns (stats: RangeStats)
      ensures var subs := if userId in users then users[userId].subs else [];
        stats.totalStatusUpdates == stats.totalSubmissions == RangeCount(subs, from, to)
        && stats.totalHoursWorked == RangeHours(subs, from, to)
        && stats.lateStatusHours == RangeLateHours(subs, from, to)
      ensures stats.totalLeaves == if userId in casual then RangeLeaves(casual[userId].leaves, from, to) else 0
      ensures to < from ==> stats.totalStatusUpdates == 0
    {
      var subs := if userId in users then users[userId].subs else [];
      var updates := 0;
      var hours, lateHours := 0.0, 0.0;
      var i := 0;
      while i < |subs|
        invariant 0 <= i <= |subs|
        invariant updates == RangeCount(subs[..i], from, to)
        invariant hours == RangeHours(subs[..i], from, to) && lateHours == RangeLateHours(subs[..i], from, to)
      {
        RangeStep(subs, from, to, i);
        var s := subs[i].sub;
        if InRange(s.date, from, to) {
          updates := updates + 1;
          hours := hours + s.hours;
          if s.isLate {
            lateHours := lateHours + s.hours;
          }
        }
        i := i + 1;
      }
      assert subs[..i] == subs;
      var leaves := 0;
      if userId in casual {
        leaves := LeavesInRange(casual[userId].leaves, from, to);
      }
      if to < from {
        RangeCountEmpty(subs, from, to);
      }
      stats := RangeStats(updates, hours, leaves, lateHours, updates);
    }
  }

  /** The casual-leave loop of `count_user_statistics_for_range`: leaves whose start parses into the range. */
  method LeavesInRange(entries: seq<CasualEntry>, from: Day, to: Day) returns (leaves: nat)
    ensures leaves == RangeLeaves(entries, from, to)
    ensures leaves <= |entries|
  {
    leaves := 0;
    var j := 0;
    while j < |entries|
      invariant 0 <= j <= |entries|
      invariant leaves == RangeLeaves(entries[..j], from, to) && leaves <= j
    {
      assert entries[..j + 1][..j] == entries[..j];
      var d := ParseDMY(entries[j].start);
      if d.Some? && from <= d.value <= to {
        leaves := leaves + 1;
      }
      j := j + 1;
    }
    assert entries[..j] == entries;
  }
}
