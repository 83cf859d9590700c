/**
 * The submission ledger of `core/user_stats.py` (the `users.json` document)
 * as values: one ledger per user with its submissions in insertion order and
 * three counters that summarise them, the effect of recording a status
 * update on a ledger, and the specification functions of the queries.
 */
module Ledger {
  import opened Wrappers
  import opened Sequences
  import opened Calendar
  import opened DateText
  import opened CasualLeave

  /** One status update as stored. */
  datatype Submission = Submission(
    date: string,
    hours: real,
    description: string,
    blockers: string,
    isWfh: bool,
    isLate: bool,
    timestamp: int)

  /** A submission under its key in the `submissions` dictionary. */
  datatype SubEntry = SubEntry(id: string, sub: Submission)

  /** A user's entry in `users.json`; `subs` keeps the dictionary's insertion order. */
  datatype UserLedger = UserLedger(
    username: string,
    subs: seq<SubEntry>,
    totalHours: real,
    totalSubmissions: int,
    lateSubmissions: int)

  /** The ledger a first status update creates. */
  function NewLedger(username: string): UserLedger {
    UserLedger(username, [], 0.0, 0, 0)
  }

  function SumHours(subs: seq<SubEntry>): real {
    if subs == [] then 0.0 else SumHours(subs[..|subs| - 1]) + subs[|subs| - 1].sub.hours
  }

  predicate DistinctIds(subs: seq<SubEntry>) {
    forall i, j :: 0 <= i < j < |subs| ==> subs[i].id != subs[j].id
  }

  predicate DistinctDates(subs: seq<SubEntry>) {
    forall i, j :: 0 <= i < j < |subs| ==> subs[i].sub.date != subs[j].sub.date
  }

  predicate NonEmptyIds(subs: seq<SubEntry>) {
    forall i :: 0 <= i < |subs| ==> subs[i].id != ""
  }

  /**
   * The counters agree with the table: `total_hours` is the sum of the stored
   * hours, `total_submissions` the number of entries, `late_submissions` at
   * most that; keys are distinct non-empty strings and no date has two entries.
   */
  predicate Consistent(l: UserLedger) {
    l.totalHours == SumHours(l.subs) && l.totalSubmissions == |l.subs|
    && 0 <= l.lateSubmissions <= l.totalSubmissions
    && NonEmptyIds(l.subs) && DistinctIds(l.subs) && DistinctDates(l.subs)
  }

  // ---------------------------------------------------------------------
  // Recording a status update

  /** How `record_status_update` receives the date: a `date` object or a string. */
  datatype DateInput = AsDate(day: Day) | AsText(text: string)

  /**
   * The date normalisation of `record_status_update`: a date is spelt
   * `%d-%m-%Y`; a string is read as `%d-%m-%Y`, else as `%Y-%m-%d`, and
   * re-spelt; anything else is the ValueError.
   */
  function NormalizeDate(input: DateInput): (r: Result<string, string>)
    ensures r.Success? ==> DatePattern(r.value) && ParseDMY(r.value).Some?
                           && FormatDMY(ParseDMY(r.value).value) == r.value
    ensures input.AsDate? ==> r == Success(FormatDMY(input.day))
    ensures r.Failure? <==> input.AsText? && ParseDMY(input.text).None? && ParseYMD(input.text).None?
  {
    var r := match input
      case AsDate(d) => Success(FormatDMY(d))
      case AsText(s) =>
        match ParseDMY(s)
        case Some(d) => Success(FormatDMY(d))
        case None =>
          match ParseYMD(s)
          case Some(d) => Success(FormatDMY(d))
          case None => Failure("Invalid date format: " + s + ". Expected DD-MM-YYYY format.");
    if r.Success? then
      var d :| r.value == FormatDMY(d);
      ParseFormatDMY(d);
      r
    else r
  }

  /** Index of the first entry with the given date (the search loop of `record_status_update`). */
  function FirstWithDate(subs: seq<SubEntry>, date: string): (r: Option<nat>)
    ensures r.Some? ==> r.value < |subs| && subs[r.value].sub.date == date
                        && forall j :: 0 <= j < r.value ==> subs[j].sub.date != date
    ensures r.None? ==> forall j :: 0 <= j < |subs| ==> subs[j].sub.date != date
  {
    if subs == [] then None
    else if subs[0].sub.date == date then Some(0)
    else
      var r := FirstWithDate(subs[1..], date);
      if r.None? then None else Some(r.value + 1)
  }

  /** Whether the found key is truthy: `if existing_submission:` treats an empty key as not found. */
  function Overridden(subs: seq<SubEntry>, date: string): Option<nat> {
    var k := FirstWithDate(subs, date);
    if k.Some? && subs[k.value].id != "" then k else None
  }

  /**
   * The ledger after recording `sub` under the normalised `date`: an existing
   * entry for the date is overwritten under its own key and its hours
   * swapped in the total; otherwise a new entry is appended under `freshId`
   * and the counters move on.
   */
  function RecordInLedger(l: UserLedger, username: string, date: string, sub: Submission, freshId: string): UserLedger {
    match Overridden(l.subs, date)
    case Some(k) =>
      l.(username := username,
         subs := l.subs[k := SubEntry(l.subs[k].id, sub)],
         totalHours := l.totalHours - l.subs[k].sub.hours + sub.hours)
    case None =>
      l.(username := username,
         subs := l.subs + [SubEntry(freshId, sub)],
         totalSubmissions := l.totalSubmissions + 1,
         lateSubmissions := l.lateSubmissions + (if sub.isLate then 1 else 0),
         totalHours := l.totalHours + sub.hours)
  }

  /**
   * A date with no entry: exactly one entry is added, under the fresh key,
   * after the existing ones; `total_submissions` rises by one and
   * `late_submissions` by one exactly when the update is late.
   */
  lemma RecordNewDate(l: UserLedger, username: string, date: string, sub: Submission, freshId: string)
    requires FirstWithDate(l.subs, date).None?
    ensures var n := RecordInLedger(l, username, date, sub, freshId);
      n.subs == l.subs + [SubEntry(freshId, sub)]
      && n.totalSubmissions == l.totalSubmissions + 1
      && (n.lateSubmissions == l.lateSubmissions + 1 <==> sub.isLate)
      && (!sub.isLate ==> n.lateSubmissions == l.lateSubmissions)
      && n.totalHours == l.totalHours + sub.hours
  {
  }

  /**
   * A date that has an entry: the entry is replaced under the same key, the
   * number of entries and both counters stay, and `total_hours` changes by
   * the new hours minus the old.
   */
  lemma RecordExistingDate(l: UserLedger, username: string, date: string, sub: Submission, freshId: string)
    requires Consistent(l) && FirstWithDate(l.subs, date).Some?
    ensures var k := FirstWithDate(l.subs, date).value;
      var n := RecordInLedger(l, username, date, sub, freshId);
      |n.subs| == |l.subs| && n.subs[k] == SubEntry(l.subs[k].id, sub)
      && (forall j :: 0 <= j < |l.subs| && j != k ==> n.subs[j] == l.subs[j])
      && n.totalSubmissions == l.totalSubmissions && n.lateSubmissions == l.lateSubmissions
      && n.totalHours - l.totalHours == sub.hours - l.subs[k].sub.hours
  {
  }

  lemma SumHoursAppend(subs: seq<SubEntry>, e: SubEntry)
    ensures SumHours(subs + [e]) == SumHours(subs) + e.sub.hours
  {
    assert (subs + [e])[..|subs|] == subs;
  }

  /** Replacing one entry changes the sum by the difference of the two entries' hours. */
  lemma {:induction false} SumHoursUpdate(subs: seq<SubEntry>, k: nat, e: SubEntry)
    requires k < |subs|
    ensures SumHours(subs[k := e]) == SumHours(subs) - subs[k].sub.hours + e.sub.hours
  {
    var n := |subs| - 1;
    var u := subs[k := e];
    if k < n {
      SumHoursUpdate(subs[..n], k, e);
      assert u[..n] == subs[..n][k := e];
    } else {
      assert u[..n] == subs[..n];
    }
  }

  /**
   * Recording keeps a consistent ledger consistent: the counters still equal
   * the table and every date still has at most one entry.
   */
  lemma RecordPreservesConsistent(l: UserLedger, username: string, date: string, sub: Submission, freshId: string)
    requires Consistent(l) && freshId != ""
    requires forall j :: 0 <= j < |l.subs| ==> l.subs[j].id != freshId
    requires sub.date == date
    ensures Consistent(RecordInLedger(l, username, date, sub, freshId))
  {
    var n := RecordInLedger(l, username, date, sub, freshId);
    match Overridden(l.subs, date)
    case Some(k) =>
      SumHoursUpdate(l.subs, k, SubEntry(l.subs[k].id, sub));
    case None =>
      SumHoursAppend(l.subs, SubEntry(freshId, sub));
  }

  /** After recording, the ledger holds an entry for the date with the new submission. */
  lemma RecordedIsFound(l: UserLedger, username: string, date: string, sub: Submission, freshId: string)
    requires sub.date == date
    ensures var n := RecordInLedger(l, username, date, sub, freshId);
      exists i :: 0 <= i < |n.subs| && n.subs[i].sub == sub
  {
    var n := RecordInLedger(l, username, date, sub, freshId);
    match Overridden(l.subs, date)
    case Some(k) =>
      assert n.subs[k].sub == sub;
    case None =>
      assert n.subs[|l.subs|].sub == sub;
  }

  // ---------------------------------------------------------------------
  // Query specifications

  /** The user has a stored entry for the date string. */
  predicate HasSubmissionOn(users: map<nat, UserLedger>, id: nat, date: string) {
    id in users && exists i :: 0 <= i < |users[id].subs| && users[id].subs[i].sub.date == date
  }

  /** The stored submissions for a date, in order. */
  function SubmissionsOn(subs: seq<SubEntry>, date: string): (r: seq<Submission>)
    ensures |r| <= |subs|
    ensures forall s :: s in r ==> s.date == date
  {
    if subs == [] then []
    else
      var init := SubmissionsOn(subs[..|subs| - 1], date);
      var last := subs[|subs| - 1].sub;
      if last.date == date then init + [last] else init
  }

  /** There is a submission for the date exactly when some entry has it. */
  lemma {:induction false} SubmissionsOnEmpty(subs: seq<SubEntry>, date: string)
    ensures SubmissionsOn(subs, date) == [] <==> forall i :: 0 <= i < |subs| ==> subs[i].sub.date != date
  {
    if subs != [] {
      var init := subs[..|subs| - 1];
      SubmissionsOnEmpty(init, date);
      assert forall i :: 0 <= i < |init| ==> init[i] == subs[i];
    }
  }

  /** With distinct dates a day has at most one submission. */
  lemma {:induction false} SubmissionsOnAtMostOne(subs: seq<SubEntry>, date: string)
    requires DistinctDates(subs)
    ensures |SubmissionsOn(subs, date)| <= 1
  {
    if subs != [] {
      var init := subs[..|subs| - 1];
      SubmissionsOnAtMostOne(init, date);
      if subs[|subs| - 1].sub.date == date {
        SubmissionsOnEmpty(init, date);
      }
    }
  }

  /** The hours stored for a date. */
  function DayHours(subs: seq<SubEntry>, date: string): real {
    if subs == [] then 0.0
    else DayHours(subs[..|subs| - 1], date) + (if subs[|subs| - 1].sub.date == date then subs[|subs| - 1].sub.hours else 0.0)
  }

  /** The number of entries stored for a date. */
  function DayCount(subs: seq<SubEntry>, date: string): nat {
    if subs == [] then 0
    else DayCount(subs[..|subs| - 1], date) + (if subs[|subs| - 1].sub.date == date then 1 else 0)
  }

  lemma {:induction false} DayCountIsSubmissionsOn(subs: seq<SubEntry>, date: string)
    ensures DayCount(subs, date) == |SubmissionsOn(subs, date)|
  {
    if subs != [] {
      DayCountIsSubmissionsOn(subs[..|subs| - 1], date);
    }
  }

  /** With distinct dates a day holds at most one entry. */
  lemma DayAtMostOnce(subs: seq<SubEntry>, date: string)
    requires DistinctDates(subs)
    ensures DayCount(subs, date) <= 1
  {
    DayCountIsSubmissionsOn(subs, date);
    SubmissionsOnAtMostOne(subs, date);
  }

  /** One line of the weekly breakdown. */
  datatype DailyHours = DailyHours(date: string, hours: real, dayName: string)

  /** The result of `get_weekly_stats`. */
  datatype WeeklyStats = WeeklyStats(
    totalHours: real,
    submissionsCount: nat,
    targetMet: bool,
    dailyBreakdown: seq<DailyHours>,
    remainingHours: real)

  const WeeklyTarget: real := 32.0

  /** The breakdown line of the `i`-th day from `start`. */
  function DayLine(subs: seq<SubEntry>, start: Day, i: nat): DailyHours
    requires start + i <= MaxOrdinal
  {
    var d: Day := start + i;
    DailyHours(FormatDMY(d), DayHours(subs, FormatDMY(d)), DayName(d))
  }

  /** The breakdown lines for the spellings `dates` of the days from `start`, in order. */
  function Breakdown(subs: seq<SubEntry>, start: Day, dates: seq<string>): (r: seq<DailyHours>)
    requires |dates| == 0 || start + |dates| - 1 <= MaxOrdinal
    ensures |r| == |dates|
  {
    if dates == [] then []
    else
      var last := dates[|dates| - 1];
      Breakdown(subs, start, dates[..|dates| - 1]) + [DailyHours(last, DayHours(subs, last), DayName(start + |dates| - 1))]
  }

  /** One more date adds its line, its hours and its entries. */
  lemma WeekStep(subs: seq<SubEntry>, start: Day, dates: seq<string>, i: nat)
    requires i < |dates| && start + |dates| - 1 <= MaxOrdinal
    ensures Breakdown(subs, start, dates[..i + 1])
      == Breakdown(subs, start, dates[..i]) + [DailyHours(dates[i], DayHours(subs, dates[i]), DayName(start + i))]
    ensures HoursOver(subs, dates[..i + 1]) == HoursOver(subs, dates[..i]) + DayHours(subs, dates[i])
    ensures CountOver(subs, dates[..i + 1]) == CountOver(subs, dates[..i]) + DayCount(subs, dates[i])
  {
    assert dates[..i + 1][..i] == dates[..i];
  }

  /** The `j`-th breakdown line is the `j`-th date's hours and weekday name. */
  lemma {:induction false} BreakdownAt(subs: seq<SubEntry>, start: Day, dates: seq<string>, j: nat)
    requires start + |dates| - 1 <= MaxOrdinal && j < |dates|
    ensures Breakdown(subs, start, dates)[j] == DailyHours(dates[j], DayHours(subs, dates[j]), DayName(start + j))
  {
    if j < |dates| - 1 {
      BreakdownAt(subs, start, dates[..|dates| - 1], j);
    }
  }

  /** The `n` days from `start`, in order. */
  function DaysFrom(start: Day, n: nat): (r: seq<Day>)
    requires n == 0 || start + n - 1 <= MaxOrdinal
    ensures |r| == n && forall i :: 0 <= i < n ==> r[i] == start + i
  {
    seq(n, i requires 0 <= i < n => start + i)
  }

  /** The `%d-%m-%Y` spellings of the first `n` days from `start`. */
  function WeekDates(start: Day, n: nat): (r: seq<string>)
    requires n == 0 || start + n - 1 <= MaxOrdinal
    ensures |r| == n
  {
    Map(FormatDMY, DaysFrom(start, n))
  }

  /** The `j`-th of the week's dates is the spelling of `start + j`. */
  lemma WeekDatesAt(start: Day, n: nat, j: nat)
    requires start + n - 1 <= MaxOrdinal && j < n
    ensures WeekDates(start, n)[j] == FormatDMY(start + j)
  {
    DaysFromAt(FormatDMY, start, n, j);
  }

  /** The image of the `j`-th day from `start` is the image of `start + j`. */
  lemma DaysFromAt<B>(f: Day -> B, start: Day, n: nat, j: nat)
    requires start + n - 1 <= MaxOrdinal && j < n
    ensures Map(f, DaysFrom(start, n))[j] == f(start + j)
  {
    var ds := DaysFrom(start, n);
    MapAt(f, ds, j);
    assert ds[j] == start + j;
  }

  /** Hours stored for the given dates. */
  function HoursOver(subs: seq<SubEntry>, dates: seq<string>): real {
    if dates == [] then 0.0 else HoursOver(subs, dates[..|dates| - 1]) + DayHours(subs, dates[|dates| - 1])
  }

  /** Entries stored for the given dates. */
  function CountOver(subs: seq<SubEntry>, dates: seq<string>): nat {
    if dates == [] then 0 else CountOver(subs, dates[..|dates| - 1]) + DayCount(subs, dates[|dates| - 1])
  }

  /** The sum of the hours of breakdown lines. */
  function LinesHours(lines: seq<DailyHours>): real {
    if lines == [] then 0.0 else LinesHours(lines[..|lines| - 1]) + lines[|lines| - 1].hours
  }

  lemma LinesHoursAppend(lines: seq<DailyHours>, line: DailyHours)
    ensures LinesHours(lines + [line]) == LinesHours(lines) + line.hours
  {
    assert (lines + [line])[..|lines|] == lines;
  }

  /** With distinct dates, the entries over a list of dates are at most one per date. */
  lemma {:induction false} CountOverAtMostDates(subs: seq<SubEntry>, dates: seq<string>)
    requires DistinctDates(subs)
    ensures CountOver(subs, dates) <= |dates|
  {
    if dates != [] {
      CountOverAtMostDates(subs, dates[..|dates| - 1]);
      DayAtMostOnce(subs, dates[|dates| - 1]);
    }
  }

  /** A consistent ledger has at most seven submissions in a week. */
  lemma WeekAtMostSeven(l: UserLedger, start: Day)
    requires Consistent(l) && start + 6 <= MaxOrdinal
    ensures CountOver(l.subs, WeekDates(start, 7)) <= 7
  {
    CountOverAtMostDates(l.subs, WeekDates(start, 7));
  }

  /** The stats `get_weekly_stats` reports for a user it has no ledger for. */
  const UnknownUserWeek := WeeklyStats(0.0, 0, false, [], 32.0)

  /** The submission's date string parses to a day in the given month of the given year. */
  predicate InMonth(s: Submission, month: int, year: int) {
    var d := ParseDMY(s.date);
    d.Some? && FromOrdinal(d.value).month == month && FromOrdinal(d.value).year == year
  }

  /** The result of `get_monthly_stats`. */
  datatype MonthlyStats = MonthlyStats(totalHours: real, totalSubmissions: nat, lateSubmissions: nat, daysWorked: nat)

  function MonthHours(subs: seq<SubEntry>, month: int, year: int): real {
    if subs == [] then 0.0
    else MonthHours(subs[..|subs| - 1], month, year)
         + (if InMonth(subs[|subs| - 1].sub, month, year) then subs[|subs| - 1].sub.hours else 0.0)
  }

  function MonthCount(subs: seq<SubEntry>, month: int, year: int): nat {
    if subs == [] then 0
    else MonthCount(subs[..|subs| - 1], month, year) + (if InMonth(subs[|subs| - 1].sub, month, year) then 1 else 0)
  }

  function MonthLate(subs: seq<SubEntry>, month: int, year: int): nat {
    if subs == [] then 0
    else MonthLate(subs[..|subs| - 1], month, year)
         + (if InMonth(subs[|subs| - 1].sub, month, year) && subs[|subs| - 1].sub.isLate then 1 else 0)
  }

  /** The distinct date strings of the month's entries. */
  function MonthDates(subs: seq<SubEntry>, month: int, year: int): set<string> {
    if subs == [] then {}
    else MonthDates(subs[..|subs| - 1], month, year)
         + (if InMonth(subs[|subs| - 1].sub, month, year) then {subs[|subs| - 1].sub.date} else {})
  }

  /** One more entry extends the month's hours, count, late count and dates by its own share. */
  lemma MonthStep(subs: seq<SubEntry>, month: int, year: int, i: nat)
    requires i < |subs|
    ensures var p := subs[..i]; var q := subs[..i + 1]; var s := subs[i].sub;
      MonthHours(q, month, year) == MonthHours(p, month, year) + (if InMonth(s, month, year) then s.hours else 0.0)
      && MonthCount(q, month, year) == MonthCount(p, month, year) + (if InMonth(s, month, year) then 1 else 0)
      && MonthLate(q, month, year) == MonthLate(p, month, year) + (if InMonth(s, month, year) && s.isLate then 1 else 0)
      && MonthDates(q, month, year) == MonthDates(p, month, year) + (if InMonth(s, month, year) then {s.date} else {})
  {
    assert subs[..i + 1][..i] == subs[..i];
  }

  lemma {:induction false} MonthDatesMembers(subs: seq<SubEntry>, month: int, year: int)
    ensures forall date :: date in MonthDates(subs, month, year) <==>
      exists i :: 0 <= i < |subs| && subs[i].sub.date == date && InMonth(subs[i].sub, month, year)
  {
    if subs != [] {
      var init := subs[..|subs| - 1];
      MonthDatesMembers(init, month, year);
      assert forall i :: 0 <= i < |init| ==> init[i] == subs[i];
    }
  }

  /** The late entries of a month are among its entries. */
  lemma {:induction false} MonthLateBound(subs: seq<SubEntry>, month: int, year: int)
    ensures MonthLate(subs, month, year) <= MonthCount(subs, month, year)
  {
    if subs != [] {
      MonthLateBound(subs[..|subs| - 1], month, year);
    }
  }

  /**
   * Days worked never exceed submissions, and with one entry per date the
   * days worked are exactly the submissions counted.
   */
  lemma {:induction false} MonthCounts(subs: seq<SubEntry>, month: int, year: int)
    ensures |MonthDates(subs, month, year)| <= MonthCount(subs, month, year)
    ensures DistinctDates(subs) ==> |MonthDates(subs, month, year)| == MonthCount(subs, month, year)
  {
    if subs != [] {
      var init := subs[..|subs| - 1];
      var last := subs[|subs| - 1].sub;
      MonthCounts(init, month, year);
      if DistinctDates(subs) && InMonth(last, month, year) {
        FreshMonthDate(subs, month, year);
      }
    }
  }

  /** With one entry per date, the last entry's date is not among the earlier month dates. */
  lemma FreshMonthDate(subs: seq<SubEntry>, month: int, year: int)
    requires subs != [] && DistinctDates(subs)
    ensures DistinctDates(subs[..|subs| - 1])
    ensures subs[|subs| - 1].sub.date !in MonthDates(subs[..|subs| - 1], month, year)
  {
    MonthDatesMembers(subs[..|subs| - 1], month, year);
  }

  /** The submission's date string parses to a day between `from` and `to`. */
  predicate InRange(date: string, from: Day, to: Day) {
    var d := ParseDMY(date);
    d.Some? && from <= d.value <= to
  }

  /** The result of `count_user_statistics_for_range`. */
  datatype RangeStats = RangeStats(
    totalStatusUpdates: nat,
    totalHoursWorked: real,
    totalLeaves: nat,
    lateStatusHours: real,
    totalSubmissions: nat)

  function RangeCount(subs: seq<SubEntry>, from: Day, to: Day): nat {
    if subs == [] then 0
    else RangeCount(subs[..|subs| - 1], from, to) + (if InRange(subs[|subs| - 1].sub.date, from, to) then 1 else 0)
  }

  function RangeHours(subs: seq<SubEntry>, from: Day, to: Day): real {
    if subs == [] then 0.0
    else RangeHours(subs[..|subs| - 1], from, to)
         + (if InRange(subs[|subs| - 1].sub.date, from, to) then subs[|subs| - 1].sub.hours else 0.0)
  }

  function RangeLateHours(subs: seq<SubEntry>, from: Day, to: Day): real {
    if subs == [] then 0.0
    else RangeLateHours(subs[..|subs| - 1], from, to)
         + (if InRange(subs[|subs| - 1].sub.date, from, to) && subs[|subs| - 1].sub.isLate
            then subs[|subs| - 1].sub.hours else 0.0)
  }

  /** One more entry extends the range's count, hours and late hours by its own share. */
  lemma RangeStep(subs: seq<SubEntry>, from: Day, to: Day, i: nat)
    requires i < |subs|
    ensures var p := subs[..i]; var q := subs[..i + 1]; var s := subs[i].sub;
      RangeCount(q, from, to) == RangeCount(p, from, to) + (if InRange(s.date, from, to) then 1 else 0)
      && RangeHours(q, from, to) == RangeHours(p, from, to) + (if InRange(s.date, from, to) then s.hours else 0.0)
      && RangeLateHours(q, from, to)
         == RangeLateHours(p, from, to) + (if InRange(s.date, from, to) && s.isLate then s.hours else 0.0)
  {
    assert subs[..i + 1][..i] == subs[..i];
  }

  /** Casual leaves whose start date falls in the range. */
  function RangeLeaves(leaves: seq<CasualEntry>, from: Day, to: Day): nat {
    if leaves == [] then 0
    else RangeLeaves(leaves[..|leaves| - 1], from, to) + (if InRange(leaves[|leaves| - 1].start, from, to) then 1 else 0)
  }

  /** Counting over adjacent ranges adds up: the range statistics split at any day. */
  lemma {:induction false} RangeCountSplit(subs: seq<SubEntry>, from: Day, mid: Day, to: Day)
    requires from <= mid < to
    ensures RangeCount(subs, from, to) == RangeCount(subs, from, mid) + RangeCount(subs, mid + 1, to)
  {
    if subs != [] {
      RangeCountSplit(subs[..|subs| - 1], from, mid, to);
    }
  }

  /** An empty range (`from` after `to`) counts nothing. */
  lemma {:induction false} RangeCountEmpty(subs: seq<SubEntry>, from: Day, to: Day)
    requires to < from
    ensures RangeCount(subs, from, to) == 0
  {
    if subs != [] {
      RangeCountEmpty(subs[..|subs| - 1], from, to);
    }
  }
}
