/**
 * The input validators and small rules of `ui/forms.py`: dates typed as
 * DD-MM-YYYY, leave ranges "A to B", hours against the weekday/weekend and
 * WFH minimums, work descriptions, the team/year role check, lateness and
 * the Monday-to-Sunday week of a date. Each Python `ValueError` is a
 * `Failure` carrying which check refused the input.
 */
module Validators {
  import opened Wrappers
  import opened Calendar
  import opened Text
  import opened DateText
  import opened ChannelLookup

  // ---------------------------------------------------------------------
  // Dates

  datatype DateError = DateEmpty | NotDDMMYYYY | NotACalendarDate | DateInFuture

  /**
   * `validate_date_format`: the stripped text must be `\d{2}-\d{2}-\d{4}`
   * and a calendar date; an accepted text is the canonical spelling of the
   * date it names.
   */
  function ValidateDateFormat(s: string): (r: Result<Day, DateError>)
    ensures r == Failure(DateEmpty) <==> Strip(s) == ""
    ensures r.Success? <==> DatePattern(Strip(s)) && ParseDMY(Strip(s)).Some?
    ensures r.Success? ==> FormatDMY(r.value) == Strip(s)
  {
    var t := Strip(s);
    if t == "" then Failure(DateEmpty)
    else if !DatePattern(t) then Failure(NotDDMMYYYY)
    else
      match ParseDMY(t)
      case None => Failure(NotACalendarDate)
      case Some(d) =>
        FormatParseDMY(t);
        Success(d)
  }

  /** A text of the DD-MM-YYYY shape has no blank at its ends. */
  lemma PatternStripped(t: string)
    requires DatePattern(t)
    ensures Strip(t) == t
  {
    StripNoop(t);
  }

  /** A text of the DD-MM-YYYY shape that parses is accepted as the day it parses to. */
  lemma ValidatePatternText(t: string, d: Day)
    requires DatePattern(t) && ParseDMY(t) == Some(d)
    ensures ValidateDateFormat(t) == Success(d)
  {
    PatternStripped(t);
  }

  /** A date's own spelling is accepted as that date. */
  lemma ValidateFormattedDate(d: Day)
    ensures ValidateDateFormat(FormatDMY(d)) == Success(d)
  {
    ParseFormatDMY(d);
    ValidatePatternText(FormatDMY(d), d);
  }

  /** `validate_status_date`: a valid date that is not after `today`. */
  function ValidateStatusDate(s: string, today: Day): (r: Result<Day, DateError>)
    ensures r.Success? <==> ValidateDateFormat(s).Success? && ValidateDateFormat(s).value <= today
    ensures r.Success? ==> r.value == ValidateDateFormat(s).value
  {
    match ValidateDateFormat(s)
    case Failure(e) => Failure(e)
    case Success(d) => if d > today then Failure(DateInFuture) else Success(d)
  }

  /** `is_late_submission`: the date is before `today`. */
  predicate IsLateSubmission(d: Day, today: Day) {
    d < today
  }

  /** An accepted status date is either today or late. */
  lemma AcceptedStatusDateIsTodayOrLate(s: string, today: Day)
    requires ValidateStatusDate(s, today).Success?
    ensures var d := ValidateStatusDate(s, today).value;
      IsLateSubmission(d, today) <==> d != today
  {
  }

  // ---------------------------------------------------------------------
  // Leave ranges

  const RangeSeparator := " to "

  datatype RangeError = NoSeparator | SeveralSeparators | MissingDate | BadStart(DateError) | BadEnd(DateError)
                      | StartAfterEnd | StartInPast

  /** An accepted range: the two days and the two texts as typed (stripped). */
  datatype LeaveRange = LeaveRange(start: Day, end: Day, startText: string, endText: string)

  /** The checks of `validate_leave_date_range` after the split, on the two stripped sides. */
  function RangeOfSides(a: string, b: string, today: Day): (r: Result<LeaveRange, RangeError>)
    requires Strip(a) == a && Strip(b) == b
    ensures r.Success? ==> today <= r.value.start <= r.value.end
    ensures r.Success? ==> r.value.startText == a && r.value.endText == b
    ensures r.Success? ==> FormatDMY(r.value.start) == a && FormatDMY(r.value.end) == b
  {
    if a == "" || b == "" then Failure(MissingDate)
    else
      match ValidateDateFormat(a)
      case Failure(e) => Failure(BadStart(e))
      case Success(sd) =>
        match ValidateDateFormat(b)
        case Failure(e) => Failure(BadEnd(e))
        case Success(ed) =>
          if sd > ed then Failure(StartAfterEnd)
          else if sd < today then Failure(StartInPast)
          else Success(LeaveRange(sd, ed, a, b))
  }

  /**
   * `validate_leave_date_range`: exactly one " to ", both sides valid dates,
   * start not after end and not before `today`.
   */
  function ValidateLeaveDateRange(s: string, today: Day): (r: Result<LeaveRange, RangeError>)
    ensures r.Success? ==> today <= r.value.start <= r.value.end
    ensures r.Success? ==> FormatDMY(r.value.start) == r.value.startText && FormatDMY(r.value.end) == r.value.endText
    ensures r.Success? ==> |Split(s, RangeSeparator)| == 2
    ensures !Contains(s, RangeSeparator) ==> r == Failure(NoSeparator)
  {
    if s == "" || !Contains(s, RangeSeparator) then Failure(NoSeparator)
    else
      var parts := Split(s, RangeSeparator);
      if |parts| != 2 then Failure(SeveralSeparators)
      else
        StripIdempotent(parts[0]);
        StripIdempotent(parts[1]);
        RangeOfSides(Strip(parts[0]), Strip(parts[1]), today)
  }

  /** A date's spelling has no blank, so it cannot hold the separator's first character. */
  lemma FormattedHasNoBlank(d: Day)
    ensures Free(FormatDMY(d), ' ') && FormatDMY(d) != ""
  {
  }

  /** Two blank-free non-empty sides joined by the separator split back into those sides. */
  lemma SplitRangeText(x: string, y: string)
    requires Free(x, ' ') && Free(y, ' ') && x != ""
    ensures Contains(x + RangeSeparator + y, RangeSeparator)
    ensures Split(x + RangeSeparator + y, RangeSeparator) == [x, y]
  {
    FindAfterFree(x, RangeSeparator, y);
    SplitAfterFree(x, RangeSeparator, y);
    SplitFree(y, RangeSeparator);
  }

  /** The two sides of a range written with canonical spellings are accepted as their days. */
  lemma FormattedSides(a: Day, b: Day, today: Day)
    requires today <= a <= b
    ensures Strip(FormatDMY(a)) == FormatDMY(a) && Strip(FormatDMY(b)) == FormatDMY(b)
    ensures RangeOfSides(FormatDMY(a), FormatDMY(b), today) == Success(LeaveRange(a, b, FormatDMY(a), FormatDMY(b)))
  {
    PatternStripped(FormatDMY(a));
    PatternStripped(FormatDMY(b));
    ValidateFormattedDate(a);
    ValidateFormattedDate(b);
    SidesAccepted(FormatDMY(a), FormatDMY(b), a, b, today);
  }

  /** Two stripped sides accepted as days in order, from `today` on, make a range. */
  lemma SidesAccepted(x: string, y: string, a: Day, b: Day, today: Day)
    requires Strip(x) == x && Strip(y) == y && today <= a <= b
    requires ValidateDateFormat(x) == Success(a) && ValidateDateFormat(y) == Success(b)
    ensures RangeOfSides(x, y, today) == Success(LeaveRange(a, b, x, y))
  {
  }

  /**
   * Every range starting today or later is accepted when written as
   * "DD-MM-YYYY to DD-MM-YYYY", and gives back its own days and spellings.
   */
  lemma ValidateFormattedRange(a: Day, b: Day, today: Day)
    requires today <= a <= b
    ensures ValidateLeaveDateRange(FormatDMY(a) + RangeSeparator + FormatDMY(b), today)
            == Success(LeaveRange(a, b, FormatDMY(a), FormatDMY(b)))
  {
    var x, y := FormatDMY(a), FormatDMY(b);
    FormattedHasNoBlank(a);
    FormattedHasNoBlank(b);
    SplitRangeText(x, y);
    FormattedSides(a, b, today);
  }

  /** An accepted range is accepted again, unchanged, once re-spelt canonically. */
  lemma RangeRespelling(s: string, today: Day)
    requires ValidateLeaveDateRange(s, today).Success?
    ensures var r := ValidateLeaveDateRange(s, today).value;
      ValidateLeaveDateRange(r.startText + RangeSeparator + r.endText, today) == Success(r)
  {
    var r := ValidateLeaveDateRange(s, today).value;
    ValidateFormattedRange(r.start, r.end, today);
  }

  /** Inclusive length of a range in days, `(end - start).days + 1`. */
  function RangeDays(r: LeaveRange): int {
    r.end - r.start + 1
  }

  // ---------------------------------------------------------------------
  // Hours

  /** A Python float as far as the hour checks can tell: a finite value, an infinity or NaN. */
  datatype Float = Number(value: real) | PosInf | NegInf | NaN

  /** IEEE `x < b` for a finite bound: false whenever `x` is NaN. */
  predicate FloatLess(x: Float, b: real) {
    match x
    case Number(v) => v < b
    case NegInf => true
    case PosInf => false
    case NaN => false
  }

  /** IEEE `x > b` for a finite bound: false whenever `x` is NaN. */
  predicate FloatGreater(x: Float, b: real) {
    match x
    case Number(v) => v > b
    case PosInf => true
    case NegInf => false
    case NaN => false
  }

  /** What `float(hours_str)` makes of the typed text: blank, not a number, or a float. */
  datatype HoursText = Blank | Unparsable | Parsed(number: Float)

  datatype HoursError = HoursEmpty | NotANumber | Negative | OverFifteen | BelowMinimum(minimum: real)

  const MaxHours: real := 15.0

  /** The minimum for the day: 6 (3 with WFH) at weekends, 4 (2 with WFH) on weekdays. */
  function MinHours(isWfh: bool, isWeekend: bool): (m: real)
    ensures 2.0 <= m <= 6.0
  {
    if isWeekend then (if !isWfh then 6.0 else 3.0) else (if !isWfh then 4.0 else 2.0)
  }

  /**
   * `validate_hours` as written: three IEEE comparisons, each false for
   * NaN, so NaN is accepted; what it does guarantee is that the accepted
   * float compares neither below the minimum nor above 15.
   */
  function ValidateHoursAsWritten(t: HoursText, isWfh: bool, isWeekend: bool): (r: Result<Float, HoursError>)
    ensures r.Success? ==> t == Parsed(r.value)
    ensures r.Success? ==> !FloatLess(r.value, MinHours(isWfh, isWeekend)) && !FloatGreater(r.value, MaxHours)
  {
    match t
    case Blank => Failure(HoursEmpty)
    case Unparsable => Failure(NotANumber)
    case Parsed(h) =>
      if FloatLess(h, 0.0) then Failure(Negative)
      else if FloatGreater(h, MaxHours) then Failure(OverFifteen)
      else if FloatLess(h, MinHours(isWfh, isWeekend)) then Failure(BelowMinimum(MinHours(isWfh, isWeekend)))
      else Success(h)
  }

  /** The text "nan" passes every check and is accepted as an hour count. */
  lemma NaNHoursAccepted(isWfh: bool, isWeekend: bool)
    ensures ValidateHoursAsWritten(Parsed(NaN), isWfh, isWeekend) == Success(NaN)
  {
  }

  /**
   * `validate_hours` with NaN refused as not a number: accepted hours are a
   * finite value between the day's minimum and 15.
   */
  function ValidateHours(t: HoursText, isWfh: bool, isWeekend: bool): (r: Result<real, HoursError>)
    ensures r.Success? <==> t.Parsed? && t.number.Number? && MinHours(isWfh, isWeekend) <= t.number.value <= MaxHours
    ensures r.Success? ==> r.value == t.number.value
  {
    if t == Parsed(NaN) then Failure(NotANumber)
    else
      match ValidateHoursAsWritten(t, isWfh, isWeekend)
      case Failure(e) => Failure(e)
      case Success(h) => Success(h.value)
  }

  /** The corrected validator answers exactly as the original on every input but NaN. */
  lemma HoursCorrectionOnlyTouchesNaN(t: HoursText, isWfh: bool, isWeekend: bool)
    requires t != Parsed(NaN)
    ensures ValidateHours(t, isWfh, isWeekend).Success? <==> ValidateHoursAsWritten(t, isWfh, isWeekend).Success?
    ensures ValidateHours(t, isWfh, isWeekend).Failure? ==>
              ValidateHours(t, isWfh, isWeekend).error == ValidateHoursAsWritten(t, isWfh, isWeekend).error
    ensures ValidateHours(t, isWfh, isWeekend).Success? ==>
              ValidateHoursAsWritten(t, isWfh, isWeekend).value == Number(ValidateHours(t, isWfh, isWeekend).value)
  {
  }

  // ---------------------------------------------------------------------
  // Work descriptions

  const MaxDescription := 5000

  datatype DescriptionError = DescriptionEmpty | DescriptionTooLong | NotMeaningful

  /** `s.replace(' ', '')`: only the plain blank is removed. */
  function WithoutBlanks(s: string): (r: string)
    ensures |r| <= |s|
  {
    if s == [] then [] else WithoutBlanks(s[..|s| - 1]) + (if s[|s| - 1] == ' ' then [] else [s[|s| - 1]])
  }

  /** The set of characters of a string. */
  function CharSet(s: string): set<char> {
    set i | 0 <= i < |s| :: s[i]
  }

  /** `len(set(description.replace(' ', '').lower()))`. */
  function DistinctChars(s: string): nat {
    |CharSet(Lower(WithoutBlanks(s)))|
  }

  /** A string has no more distinct characters than characters. */
  lemma {:induction false} CharSetBound(s: string)
    ensures |CharSet(s)| <= |s|
  {
    if s != [] {
      var init := s[..|s| - 1];
      CharSetBound(init);
      assert CharSet(s) == CharSet(init) + {s[|s| - 1]};
    }
  }

  /**
   * `validate_work_description`: the stripped text, if it has 1 to 5000
   * characters and at least 3 distinct non-blank characters ignoring case.
   */
  function ValidateWorkDescription(s: string): (r: Result<string, DescriptionError>)
    ensures r.Success? <==> 1 <= |Strip(s)| <= MaxDescription && DistinctChars(Strip(s)) >= 3
    ensures r.Success? ==> r.value == Strip(s)
  {
    var t := Strip(s);
    if t == "" then Failure(DescriptionEmpty)
    else if |t| > MaxDescription then Failure(DescriptionTooLong)
    else if DistinctChars(t) < 3 then Failure(NotMeaningful)
    else Success(t)
  }

  /** Validating an accepted description again accepts it unchanged. */
  lemma WorkDescriptionIdempotent(s: string)
    requires ValidateWorkDescription(s).Success?
    ensures ValidateWorkDescription(ValidateWorkDescription(s).value) == ValidateWorkDescription(s)
  {
    StripIdempotent(s);
  }

  /** An accepted description has at least three characters. */
  lemma AcceptedDescriptionLength(s: string)
    requires ValidateWorkDescription(s).Success?
    ensures |ValidateWorkDescription(s).value| >= 3
  {
    var t := Strip(s);
    CharSetBound(Lower(WithoutBlanks(t)));
  }

  // ---------------------------------------------------------------------
  // Roles

  datatype RoleError = NoTeamRole | NoYearRole

  predicate HasTeamRole(roles: seq<string>) {
    exists i :: 0 <= i < |roles| && roles[i] in TeamCategoryMap
  }

  predicate HasYearRole(roles: seq<string>) {
    exists i :: 0 <= i < |roles| && roles[i] in YearChannelPrefixMap
  }

  /**
   * `validate_user_roles`: a role that is a `TEAM_CATEGORY_MAP` key is
   * required first, then one that is a `YEAR_CHANNEL_PREFIX_MAP` key.
   */
  function ValidateUserRoles(roles: seq<string>): (r: Result<(), RoleError>)
    ensures r == Failure(NoTeamRole) <==> !HasTeamRole(roles)
    ensures r == Failure(NoYearRole) <==> HasTeamRole(roles) && !HasYearRole(roles)
    ensures r.Success? <==> HasTeamRole(roles) && HasYearRole(roles)
  {
    if !HasTeamRole(roles) then Failure(NoTeamRole)
    else if !HasYearRole(roles) then Failure(NoYearRole)
    else Success(())
  }

  /** The role check passes exactly when the channel lookup finds both a team and a year role. */
  lemma RolesPassIffLookupMatches(roles: seq<string>)
    ensures ValidateUserRoles(roles).Success? <==>
      LastMatch(roles, TeamCategoryMap.Keys).Some? && LastMatch(roles, YearChannelPrefixMap.Keys).Some?
  {
    if LastMatch(roles, TeamCategoryMap.Keys).Some? {
      LastMatchIsLast(roles, TeamCategoryMap.Keys);
      var k :| 0 <= k < |roles| && roles[k] == LastMatch(roles, TeamCategoryMap.Keys).value;
      assert roles[k] in TeamCategoryMap;
    }
    if LastMatch(roles, YearChannelPrefixMap.Keys).Some? {
      LastMatchIsLast(roles, YearChannelPrefixMap.Keys);
      var k :| 0 <= k < |roles| && roles[k] == LastMatch(roles, YearChannelPrefixMap.Keys).value;
      assert roles[k] in YearChannelPrefixMap;
    }
  }

  /** A fourth-year whose year role is "4th_years" fails the year check, the key being "4nd_years". */
  lemma FourthYearRoleRefused(team: string)
    requires team in TeamCategoryMap
    ensures ValidateUserRoles([team, "4th_years"]) == Failure(NoYearRole)
  {
    assert [team, "4th_years"][0] in TeamCategoryMap;
  }

  // ---------------------------------------------------------------------
  // Weeks

  /**
   * `get_week_dates`: the Monday and Sunday of the date's week; `None` where
   * `monday + timedelta(days=6)` overflows past 9999-12-31.
   */
  function GetWeekDates(d: Day): (r: Option<(Day, Day)>)
    ensures r.None? <==> d - Weekday(d) + 6 > MaxOrdinal
    ensures r.Some? ==> var (monday, sunday) := r.value;
      Weekday(monday) == 0 && Weekday(sunday) == 6 && monday <= d <= sunday && sunday == monday + 6
  {
    MondayOfWeek(d);
    var monday := d - Weekday(d);
    if monday + 6 > MaxOrdinal then None else Some((monday, monday + 6))
  }
}
