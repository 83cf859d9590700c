/**
 * The submit handlers of the modals in `ui/forms.py`: the daily status
 * form, and the casual, medical and special leave forms. Each handler runs
 * its checks in the source's order, and only when all pass writes one store:
 * the submission ledger, the casual-leave history or the request list.
 * Replies, embeds and channel posts are not modelled; the outcome says which
 * check refused the input, or what was written.
 */
module Forms {
  import opened Wrappers
  import opened Calendar
  import opened Text
  import opened DateText
  import opened Validators
  import opened Ledger
  import opened UserStats
  import opened CasualLeave
  import opened PendingRequests
  import Hierarchy

  /** The 500-character cap on blockers and leave reasons. */
  const MaxReason := 500

  // ---------------------------------------------------------------------
  // Weekly hours of the status form

  /**
   * `get_weekly_hours` over one ledger: the hours of the entries dated
   * `monday .. sunday`; `None` where a stored date does not parse (its
   * `strptime` is not guarded).
   */
  function WeeklyHours(subs: seq<SubEntry>, monday: Day, sunday: Day): Option<real> {
    HoursBetween(ParseDMY, subs, monday, sunday)
  }

  /** The summing loop of `get_weekly_hours`, for a given date parser. */
  function HoursBetween(parse: string -> Option<Day>, subs: seq<SubEntry>, monday: Day, sunday: Day): Option<real> {
    if subs == [] then Some(0.0)
    else
      var last := subs[|subs| - 1].sub;
      match HoursBetween(parse, subs[..|subs| - 1], monday, sunday)
      case None => None
      case Some(h) =>
        var d := parse(last.date);
        if d.None? then None else Some(h + (if monday <= d.value <= sunday then last.hours else 0.0))
  }

  /** The sum fails exactly when some stored date does not parse. */
  lemma {:induction false} HoursBetweenFails(parse: string -> Option<Day>, subs: seq<SubEntry>, monday: Day, sunday: Day)
    ensures HoursBetween(parse, subs, monday, sunday).None? <==> exists i :: 0 <= i < |subs| && parse(subs[i].sub.date).None?
  {
    if subs != [] {
      var init := subs[..|subs| - 1];
      HoursBetweenFails(parse, init, monday, sunday);
      assert forall i :: 0 <= i < |init| ==> init[i] == subs[i];
    }
  }

  /** Where every date parses, the weekly hours are the range statistics' hours for the week. */
  lemma {:induction false} WeeklyHoursIsRangeHours(subs: seq<SubEntry>, monday: Day, sunday: Day)
    requires WeeklyHours(subs, monday, sunday).Some?
    ensures WeeklyHours(subs, monday, sunday).value == RangeHours(subs, monday, sunday)
  {
    if subs != [] {
      WeeklyHoursIsRangeHours(subs[..|subs| - 1], monday, sunday);
    }
  }

  // ---------------------------------------------------------------------
  // The status form

  datatype StatusError =
    | RoleProblem(role: RoleError)
    | DateProblem(date: DateError)
    | WfhNotYesNo
    | AlreadySubmitted
    | HoursProblem(hours: HoursError)
    | WeekOutOfRange
    | StoredDateUnreadable
    | DescriptionProblem(description: DescriptionError)
    | BlockersTooLong

  /** What an accepted status form records. */
  datatype StatusPlan = StatusPlan(date: Day, hours: real, isWfh: bool, isLate: bool, description: string, blockers: string)

  /** The blockers field: "None" when left empty, else the stripped text. */
  function BlockersText(raw: string): string {
    if raw == "" then "None" else Strip(raw)
  }

  /**
   * The checks of `StatusForm.on_submit`, in order: roles, date (not in the
   * future), "yes"/"no" for WFH, no submission yet for the date, hours for
   * the weekday or weekend, the week's stored hours readable, description,
   * blockers length.
   */
  function StatusCheck(users: map<nat, UserLedger>, userId: nat, roles: seq<string>, dateText: string,
                       hoursText: HoursText, wfhText: string, descText: string, blockersText: string,
                       today: Day): (r: Result<StatusPlan, StatusError>)
    ensures r.Success? ==> ValidateUserRoles(roles).Success? && ValidateStatusDate(dateText, today) == Success(r.value.date)
    ensures r.Success? ==> (r.value.isLate <==> r.value.date < today)
    ensures r.Success? ==> MinHours(r.value.isWfh, Weekday(r.value.date) >= 5) <= r.value.hours <= MaxHours
    ensures r.Success? ==> !HasSubmissionOn(users, userId, FormatDMY(r.value.date))
    ensures r.Success? ==> ValidateWorkDescription(descText) == Success(r.value.description) && |r.value.blockers| <= MaxReason
    ensures r.Success? ==> (r.value.isWfh <==> Strip(Lower(wfhText)) == "yes")
    ensures ValidateUserRoles(roles).Success? && ValidateStatusDate(dateText, today).Success? ==>
      var d := ValidateStatusDate(dateText, today).value;
      var wfh := Strip(Lower(wfhText));
      var hours := ValidateHours(hoursText, wfh == "yes", Weekday(d) >= 5);
      var week := GetWeekDates(d);
      ((wfh == "yes" || wfh == "no") && !HasSubmissionOn(users, userId, FormatDMY(d)) && hours.Success?
       && week.Some? && (userId in users ==> WeeklyHours(users[userId].subs, week.value.0, week.value.1).Some?)
       && ValidateWorkDescription(descText).Success? && |BlockersText(blockersText)| <= MaxReason)
      ==> r == Success(StatusPlan(d, hours.value, wfh == "yes", IsLateSubmission(d, today),
                                  ValidateWorkDescription(descText).value, BlockersText(blockersText)))
  {
    match ValidateUserRoles(roles)
    case Failure(e) => Failure(RoleProblem(e))
    case Success(_) =>
      match ValidateStatusDate(dateText, today)
      case Failure(e) => Failure(DateProblem(e))
      case Success(d) =>
        var isLate := IsLateSubmission(d, today);
        var wfh := Strip(Lower(wfhText));
        if wfh != "yes" && wfh != "no" then Failure(WfhNotYesNo)
        else
          var isWfh := wfh == "yes";
          var isWeekend := Weekday(d) >= 5;
          if HasSubmissionOn(users, userId, FormatDMY(d)) then Failure(AlreadySubmitted)
          else
            match ValidateHours(hoursText, isWfh, isWeekend)
            case Failure(e) => Failure(HoursProblem(e))
            case Success(h) =>
              match GetWeekDates(d)
              case None => Failure(WeekOutOfRange)
              case Some((monday, sunday)) =>
                if userId in users && WeeklyHours(users[userId].subs, monday, sunday).None? then Failure(StoredDateUnreadable)
                else
                  match ValidateWorkDescription(descText)
                  case Failure(e) => Failure(DescriptionProblem(e))
                  case Success(desc) =>
                    var blockers := BlockersText(blockersText);
                    if |blockers| > MaxReason then Failure(BlockersTooLong)
                    else Success(StatusPlan(d, h, isWfh, isLate, desc, blockers))
  }

  /** The ledger after an accepted status form. */
  function StatusRecorded(users: map<nat, UserLedger>, userId: nat, username: string, p: StatusPlan, key: string, now: int): map<nat, UserLedger> {
    var ds := FormatDMY(p.date);
    users[userId := RecordInLedger(LedgerOf(users, userId, username), username, ds,
                                   Submission(ds, p.hours, p.description, p.blockers, p.isWfh, p.isLate, now), key)]
  }

  /**
   * The status form never overrides: a plan for a date the user has no entry
   * for, which is all `StatusCheck` accepts, appends exactly one entry to the
   * user's ledger and raises `total_submissions` by one.
   */
  lemma StatusFormAppends(users: map<nat, UserLedger>, userId: nat, username: string, p: StatusPlan, key: string, now: int)
    requires !HasSubmissionOn(users, userId, FormatDMY(p.date))
    ensures var before := LedgerOf(users, userId, username);
      var after := StatusRecorded(users, userId, username, p, key, now)[userId];
      |after.subs| == |before.subs| + 1 && after.subs[..|before.subs|] == before.subs
      && after.subs[|before.subs|].id == key && after.subs[|before.subs|].sub.date == FormatDMY(p.date)
      && after.totalSubmissions == before.totalSubmissions + 1
  {
    var before := LedgerOf(users, userId, username);
    var ds := FormatDMY(p.date);
    var sub := Submission(ds, p.hours, p.description, p.blockers, p.isWfh, p.isLate, now);
    assert FirstWithDate(before.subs, ds).None?;
    RecordNewDate(before, username, ds, sub, key);
  }

  /**
   * `StatusForm.on_submit`: the checks, then `record_status_update` with the
   * validated date object; a refused form leaves the ledger as it was.
   */
  method SubmitStatus(store: UserStore, userId: nat, username: string, roles: seq<string>, dateText: string,
                      hoursText: HoursText, wfhText: string, descText: string, blockersText: string,
                      today: Day, key: string, now: int) returns (outcome: Result<StatusPlan, StatusError>)
    requires FreshKey(store.users, userId, key)
    modifies store
    ensures outcome == StatusCheck(old(store.users), userId, roles, dateText, hoursText, wfhText, descText, blockersText, today)
    ensures outcome.Failure? ==> store.users == old(store.users)
    ensures outcome.Success? ==> store.users == StatusRecorded(old(store.users), userId, username, outcome.value, key, now)
    ensures AllConsistent(old(store.users)) ==> AllConsistent(store.users)
  {
    outcome := StatusCheck(store.users, userId, roles, dateText, hoursText, wfhText, descText, blockersText, today);
    if outcome.Success? {
      var p := outcome.value;
      var _ := store.RecordStatusUpdate(userId, username, AsDate(p.date), p.hours, p.description, p.blockers,
                                        p.isWfh, p.isLate, key, now);
    }
  }

  // ---------------------------------------------------------------------
  // The casual leave form

  datatype CasualError = CasualRoleProblem(role: RoleError) | CasualRangeProblem(range: RangeError) | CasualReasonTooLong

  /** The reason field: "No reason provided" when left empty, else the stripped text. */
  function CasualReason(raw: string): string {
    if raw == "" then "No reason provided" else Strip(raw)
  }

  /** The checks of `CasualLeaveModal.on_submit` before the quota: roles, range, reason length. */
  function CasualCheck(roles: seq<string>, rangeText: string, reasonText: string, today: Day): (r: Result<LeaveRange, CasualError>)
    ensures r.Success? ==> ValidateUserRoles(roles).Success? && ValidateLeaveDateRange(rangeText, today) == Success(r.value)
    ensures r.Success? ==> |CasualReason(reasonText)| <= MaxReason
    ensures (ValidateUserRoles(roles).Success? && ValidateLeaveDateRange(rangeText, today).Success?
             && |CasualReason(reasonText)| <= MaxReason) ==> r == Success(ValidateLeaveDateRange(rangeText, today).value)
  {
    match ValidateUserRoles(roles)
    case Failure(e) => Failure(CasualRoleProblem(e))
    case Success(_) =>
      match ValidateLeaveDateRange(rangeText, today)
      case Failure(e) => Failure(CasualRangeProblem(e))
      case Success(range) =>
        if |CasualReason(reasonText)| > MaxReason then Failure(CasualReasonTooLong) else Success(range)
  }

  datatype CasualOutcome =
    | CasualInvalid(error: CasualError)
    | CasualOverLimit(remaining: int, requested: int, allowed: int)
    | CasualRecorded(days: int)

  /** The stored record of a user, if any. */
  function RecordOf(history: map<nat, CasualRecord>, userId: nat): Option<CasualRecord> {
    if userId in history then Some(history[userId]) else None
  }

  /** Days a user has used in a month. */
  function UsedOf(history: map<nat, CasualRecord>, userId: nat, month: int, year: int): int {
    if userId in history then UsedDays(history[userId].leaves, month, year) else 0
  }

  /** The history after `record_casual_leave(userId, start, end, days)`. */
  function WithLeave(history: map<nat, CasualRecord>, userId: nat, e: CasualEntry): map<nat, CasualRecord> {
    var r := if userId in history then history[userId] else CasualRecord(0, []);
    history[userId := r.(leaves := r.leaves + [e])]
  }

  /** The entry an accepted range records: the typed start and end, and the inclusive number of days. */
  function EntryOf(range: LeaveRange): CasualEntry {
    CasualEntry(range.startText, range.endText, RangeDays(range))
  }

  /**
   * A recorded casual leave counts, in full, towards the month it starts in:
   * the month's usage after recording is the usage before plus its days.
   */
  lemma RecordedLeaveCounts(history: map<nat, CasualRecord>, userId: nat, range: LeaveRange)
    requires FormatDMY(range.start) == range.startText
    ensures var c := FromOrdinal(range.start);
      UsedOf(WithLeave(history, userId, EntryOf(range)), userId, c.month, c.year)
        == UsedOf(history, userId, c.month, c.year) + RangeDays(range)
  {
    var c := FromOrdinal(range.start);
    var r := if userId in history then history[userId] else CasualRecord(0, []);
    ParseFormatDMY(range.start);
    assert StartsIn(EntryOf(range), c.month, c.year);
    UsedDaysAppend(r.leaves, EntryOf(range), c.month, c.year);
  }

  /**
   * `CasualLeaveModal.on_submit`: the checks; then usage of the start's month
   * against the allowance; a request that would overrun a finite allowance
   * is refused with what is left; otherwise the leave is recorded, after
   * which the month's usage is still within a finite allowance.
   */
  method SubmitCasualLeave(store: CasualLeaveStore, userId: nat, roles: seq<string>, rangeText: string,
                           reasonText: string, today: Day) returns (outcome: CasualOutcome)
    modifies store
    ensures CasualCheck(roles, rangeText, reasonText, today).Failure? ==>
      outcome == CasualInvalid(CasualCheck(roles, rangeText, reasonText, today).error) && store.history == old(store.history)
    ensures CasualCheck(roles, rangeText, reasonText, today).Success? ==>
      var range := CasualCheck(roles, rangeText, reasonText, today).value;
      var c := FromOrdinal(range.start);
      var allowed := Allowed(Some(roles), RecordOf(old(store.history), userId));
      var used := UsedOf(old(store.history), userId, c.month, c.year);
      match CheckQuota(used, RangeDays(range), allowed)
      case LimitExceeded(rest) =>
        outcome == CasualOverLimit(rest, RangeDays(range), allowed.days) && store.history == old(store.history)
      case WithinLimit =>
        outcome == CasualRecorded(RangeDays(range)) && store.history == WithLeave(old(store.history), userId, EntryOf(range))
        && (allowed.Finite? ==> UsedOf(store.history, userId, c.month, c.year) <= allowed.days)
  {
    var check := CasualCheck(roles, rangeText, reasonText, today);
    if check.Failure? {
      return CasualInvalid(check.error);
    }
    outcome := ApplyCasualLeave(store, userId, roles, check.value);
  }

  /** The quota step of `CasualLeaveModal.on_submit` for a validated range. */
  method ApplyCasualLeave(store: CasualLeaveStore, userId: nat, roles: seq<string>, range: LeaveRange)
    returns (outcome: CasualOutcome)
    requires FormatDMY(range.start) == range.startText
    modifies store
    ensures var c := FromOrdinal(range.start);
      var allowed := Allowed(Some(roles), RecordOf(old(store.history), userId));
      var used := UsedOf(old(store.history), userId, c.month, c.year);
      match CheckQuota(used, RangeDays(range), allowed)
      case LimitExceeded(rest) =>
        outcome == CasualOverLimit(rest, RangeDays(range), allowed.days) && store.history == old(store.history)
      case WithinLimit =>
        outcome == CasualRecorded(RangeDays(range)) && store.history == WithLeave(old(store.history), userId, EntryOf(range))
        && (allowed.Finite? ==> UsedOf(store.history, userId, c.month, c.year) <= allowed.days)
  {
    var requested := RangeDays(range);
    var c := FromOrdinal(range.start);
    var used, allowed := store.GetCasualLeaveUsage(userId, c.month, c.year, Some(roles));
    if allowed.Finite? && used + requested > allowed.days {
      var rest := if allowed.days - used > 0 then allowed.days - used else 0;
      return CasualOverLimit(rest, requested, allowed.days);
    }
    RecordedLeaveCounts(store.history, userId, range);
    store.RecordCasualLeave(userId, range.startText, range.endText, requested);
    return CasualRecorded(requested);
  }

  // ---------------------------------------------------------------------
  // The medical and special leave forms

  datatype RequestError =
    | RequestRoleProblem(role: RoleError)
    | RequestRangeProblem(range: RangeError)
    | TooManyDays
    | ReasonMissing
    | ReasonTooLong
    | BadMode

  /** The longest special leave, in inclusive days. */
  const MaxSpecialDays := 92

  /** The reason of a medical or special request: required, at most 500 characters once stripped. */
  function CheckReason(raw: string): (r: Result<string, RequestError>)
    ensures r.Success? <==> 1 <= |Strip(raw)| <= MaxReason
    ensures r.Success? ==> r.value == Strip(raw)
  {
    var reason := Strip(raw);
    if reason == "" then Failure(ReasonMissing)
    else if |reason| > MaxReason then Failure(ReasonTooLong)
    else Success(reason)
  }

  /** What a medical request carries once checked: range, reason and mode. */
  datatype MedicalPlan = MedicalPlan(range: LeaveRange, reason: string, mode: string)

  /** The checks of `MedicalLeaveModal.on_submit`: roles, range, reason, then the mode "day-off" or "wfh". */
  function MedicalCheck(roles: seq<string>, rangeText: string, reasonText: string, modeText: string,
                        today: Day): (r: Result<MedicalPlan, RequestError>)
    ensures r.Success? ==> ValidateUserRoles(roles).Success? && ValidateLeaveDateRange(rangeText, today) == Success(r.value.range)
    ensures r.Success? ==> CheckReason(reasonText) == Success(r.value.reason)
    ensures r.Success? ==> r.value.mode == "day-off" || r.value.mode == "wfh"
    ensures (ValidateUserRoles(roles).Success? && ValidateLeaveDateRange(rangeText, today).Success?
             && CheckReason(reasonText).Success? && (Lower(Strip(modeText)) == "day-off" || Lower(Strip(modeText)) == "wfh")) ==>
      r == Success(MedicalPlan(ValidateLeaveDateRange(rangeText, today).value, CheckReason(reasonText).value, Lower(Strip(modeText))))
  {
    match ValidateUserRoles(roles)
    case Failure(e) => Failure(RequestRoleProblem(e))
    case Success(_) =>
      match ValidateLeaveDateRange(rangeText, today)
      case Failure(e) => Failure(RequestRangeProblem(e))
      case Success(range) =>
        match CheckReason(reasonText)
        case Failure(e) => Failure(e)
        case Success(reason) =>
          var mode := Lower(Strip(modeText));
          if mode != "day-off" && mode != "wfh" then Failure(BadMode)
          else Success(MedicalPlan(range, reason, mode))
  }

  /** The checks of `SpecialLeaveModal.on_submit`: roles, range, at most 92 days, then the reason. */
  function SpecialCheck(roles: seq<string>, rangeText: string, reasonText: string, today: Day): (r: Result<(LeaveRange, string), RequestError>)
    ensures r.Success? ==> ValidateUserRoles(roles).Success? && ValidateLeaveDateRange(rangeText, today) == Success(r.value.0)
    ensures r.Success? ==> 1 <= RangeDays(r.value.0) <= MaxSpecialDays
    ensures r.Success? ==> CheckReason(reasonText) == Success(r.value.1)
    ensures (ValidateUserRoles(roles).Success? && ValidateLeaveDateRange(rangeText, today).Success?
             && RangeDays(ValidateLeaveDateRange(rangeText, today).value) > MaxSpecialDays) ==> r == Failure(TooManyDays)
    ensures (ValidateUserRoles(roles).Success? && ValidateLeaveDateRange(rangeText, today).Success?
             && RangeDays(ValidateLeaveDateRange(rangeText, today).value) <= MaxSpecialDays && CheckReason(reasonText).Success?) ==>
      r == Success((ValidateLeaveDateRange(rangeText, today).value, CheckReason(reasonText).value))
  {
    match ValidateUserRoles(roles)
    case Failure(e) => Failure(RequestRoleProblem(e))
    case Success(_) =>
      match ValidateLeaveDateRange(rangeText, today)
      case Failure(e) => Failure(RequestRangeProblem(e))
      case Success(range) =>
        if RangeDays(range) > MaxSpecialDays then Failure(TooManyDays)
        else
          match CheckReason(reasonText)
          case Failure(e) => Failure(e)
          case Success(reason) => Success((range, reason))
  }

  /** The status a new request is stored with: "auto-approved" for a Core Member, else "pending". */
  function InitialStatus(roles: seq<string>): (s: Status)
    ensures s == AutoApproved <==> Hierarchy.HasAutoApprovalPrivilege(roles)
    ensures s == Pending <==> !Hierarchy.HasAutoApprovalPrivilege(roles)
  {
    if Hierarchy.HasAutoApprovalPrivilege(roles) then AutoApproved else Pending
  }

  /** The request a form stores: created now, no approver, not yet updated. */
  function NewRequest(kind: LeaveKind, requestId: string, userId: nat, range: LeaveRange, reason: string,
                      mode: Option<string>, roles: seq<string>, now: int): LeaveRequest {
    LeaveRequest(requestId, kind, userId, range.startText, range.endText, reason, mode, InitialStatus(roles),
                 None, Some(now), None)
  }

  /**
   * `MedicalLeaveModal.on_submit`: a checked request is appended to the
   * request list, auto-approved for a Core Member and pending otherwise; a
   * refused form stores nothing.
   */
  method SubmitMedicalLeave(store: RequestStore, userId: nat, roles: seq<string>, rangeText: string, reasonText: string,
                            modeText: string, today: Day, requestId: string, now: int)
    returns (outcome: Result<LeaveRequest, RequestError>)
    modifies store
    ensures MedicalCheck(roles, rangeText, reasonText, modeText, today).Failure? ==>
      outcome == Failure(MedicalCheck(roles, rangeText, reasonText, modeText, today).error) && store.requests == old(store.requests)
    ensures MedicalCheck(roles, rangeText, reasonText, modeText, today).Success? ==>
      var p := MedicalCheck(roles, rangeText, reasonText, modeText, today).value;
      outcome == Success(NewRequest(Medical, requestId, userId, p.range, p.reason, Some(p.mode), roles, now))
      && store.requests == old(store.requests) + [outcome.value]
  {
    var check := MedicalCheck(roles, rangeText, reasonText, modeText, today);
    if check.Failure? {
      return Failure(check.error);
    }
    var p := check.value;
    var request := NewRequest(Medical, requestId, userId, p.range, p.reason, Some(p.mode), roles, now);
    store.Append(request);
    return Success(request);
  }

  /**
   * `SpecialLeaveModal.on_submit`: like the medical form, without a mode,
   * and refusing more than 92 days before the reason is looked at.
   */
  method SubmitSpecialLeave(store: RequestStore, userId: nat, roles: seq<string>, rangeText: string, reasonText: string,
                            today: Day, requestId: string, now: int)
    returns (outcome: Result<LeaveRequest, RequestError>)
    modifies store
    ensures SpecialCheck(roles, rangeText, reasonText, today).Failure? ==>
      outcome == Failure(SpecialCheck(roles, rangeText, reasonText, today).error) && store.requests == old(store.requests)
    ensures SpecialCheck(roles, rangeText, reasonText, today).Success? ==>
      var (range, reason) := SpecialCheck(roles, rangeText, reasonText, today).value;
      outcome == Success(NewRequest(Special, requestId, userId, range, reason, None, roles, now))
      && store.requests == old(store.requests) + [outcome.value]
  {
    var check := SpecialCheck(roles, rangeText, reasonText, today);
    if check.Failure? {
      return Failure(check.error);
    }
    var (range, reason) := check.value;
    var request := NewRequest(Special, requestId, userId, range, reason, None, roles, now);
    store.Append(request);
    return Success(request);
  }
}
