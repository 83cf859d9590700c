# Attendance bot core, modelled in Dafny

This project models the core logic of a Discord attendance bot for a student
club. The bot does the following:

- Members of the "current-team" role submit a daily status update: a date,
  hours, whether they worked from the hostel, a description and blockers.
- Members request casual, medical or special leave. Casual leave is
  auto-approved within a monthly quota. Medical and special requests wait
  for a higher-ranked member to press Approve or Deny, unless the requester
  is a Core Member.
- A nightly job warns members who neither submitted nor were on leave the
  day before. The third and later warnings of a month put them on
  probation.
- An 11 PM job reminds the members who have not submitted yet, grouped by
  their team and year status channel.
- Administrators get weekly summaries.

The JSON files the bot keeps become classes, each holding the document as a
field:

| class | file |
|---|---|
| `UserStats.UserStore` | `users.json` |
| `PendingRequests.RequestStore` | `pending.json` |
| `CasualLeave.CasualLeaveStore` | `casual_leave.json` |
| `Warnings.WarningStore` | `warnings.json` |
| `CurrentTeam.CurrentTeamManager` | the per-guild current-team cache |

Each method is proved against a specification function of the old state. The
lemmas beside it prove what the bot promises:

- the ledger counters stay consistent with the table;
- a day has at most one submission;
- date spellings round-trip;
- the approval hierarchy is asymmetric;
- the reminder groups partition the candidates;
- the weekly summary shows the 15 members with the most hours.

Python's `datetime` is modelled by `Calendar`, which counts days as
proleptic Gregorian ordinals (1 is 0001-01-01). `DateText` models the
`strftime` and `strptime` behaviour the bot relies on. `Text` models
`str.strip`, `str.lower` on ASCII, `str.split`, `str()` of a natural number,
and zero padding.

The current time, today's date, fresh UUIDs, the guild's member list, its
category names and its role directory are parameters. Whether the guild has
the probation roles is a parameter too.

Where the code and its docstrings or comments disagree, the model follows the
code:

- a 3rd-year Core Member gets 10 casual days a month, not 4 or 22;
- `get_weekly_stats` returns an empty breakdown for an unknown user;
- the year key for fourth-years is spelt "4nd_years", so a member whose year
  role is "4th_years" has no status channel and fails the role check.

## Model

| member | source | states |
|---|---|---|
| Hierarchy.MaxLevelIsMaximum | src/ui/buttons.py:13-18 | the user level bounds every role's level and is 0 or reached by one of the roles |
| Hierarchy.GetUserLevel | src/ui/buttons.py:13-18 | the loop computes the highest level over the roles, 0 for none: an upper bound reached by some role |
| Hierarchy.ApprovalAsymmetric | src/ui/buttons.py:21-25 | no two members can approve each other, and nobody can approve themselves |
| Hierarchy.EqualLevelsNeverApprove | src/ui/buttons.py:21-25 | members of equal level can never approve each other |
| Hierarchy.CoreMemberAndFourthYearsTie | src/ui/buttons.py:4-10 | "Core Member" and "4th_years" are both level 4, so neither can approve the other |
| Hierarchy.FirstYearsHaveLevelZero | src/ui/buttons.py:4-18 | "1st_years" is not in the hierarchy, so first-years rank like members with no role |
| Hierarchy.GetRoleDisplayName | src/ui/buttons.py:28-40 | "Unknown" at level 0; otherwise the first role, in list order, that reaches the highest level |
| Hierarchy.CheckPermissions | src/ui/buttons.py:52-83 | self-action, a requester missing from the guild, and a level that is not higher are refused, in that order; each outcome is stated as an if-and-only-if |
| Hierarchy.SelfActionAlwaysRefused | src/ui/buttons.py:56-61 | acting on one's own request is refused whatever the level |
| Hierarchy.CoreMemberNeverOutranked | src/ui/buttons.py:244-249 | a holder of the auto-approval privilege ("Core Member") can be approved by nobody |
| Approval.StatusOf | src/ui/buttons.py:88 | Approve writes "approved" and Deny writes "denied" |
| Approval.RespondAsWritten | src/ui/buttons.py:86-141 | as written, the status, approver and time are stored before the permission check; a refusal still leaves the update in the list |
| Approval.SelfApprovalIsStored | src/ui/buttons.py:86-101 | a requester pressing Approve on their own request is refused, yet the request is stored as approved with the requester as its approver |
| Approval.SelfApprovalExample | src/ui/buttons.py:86-101 | one concrete pending request shows the self-approval being stored |
| Approval.Respond | src/ui/buttons.py:144-199 | with the check first, a refused press or a missing request leaves the list unchanged; an allowed press writes the first matching request |
| Approval.RespondNeedsHigherLevel | src/ui/buttons.py:21-25 | a decision is written only by a member other than the requester, with a strictly higher level than the requester |
| Approval.OpenThread | src/ui/buttons.py:202-240 | the thread opens only when the request exists and its requester is in the guild; it includes that requester |
| PendingRequests.FirstWithId | src/core/user_stats.py:295-301 | the first request with the id, or none when no request has it |
| PendingRequests.UpdateChangesFirstMatchOnly | src/core/user_stats.py:303-317 | an update changes only status, approver and update time of the first request with the id; everything else and the order stay |
| PendingRequests.Kept | src/core/user_stats.py:319-334 | cleanup keeps exactly the requests created after the cutoff or with an unreadable creation time, and never adds any |
| PendingRequests.KeptIdempotent | src/core/user_stats.py:319-334 | cleaning twice with the same cutoff is cleaning once |
| PendingRequests.KeptAll | src/core/user_stats.py:319-334 | nothing is removed exactly when every request survives |
| PendingRequests.RequestStore.constructor | src/core/user_stats.py:28-33 | the store holds the loaded list |
| PendingRequests.RequestStore.FindPendingRequest | src/core/user_stats.py:295-301 | returns a request with the id, the first one; `None` exactly when no request has the id |
| PendingRequests.RequestStore.UpdatePendingRequest | src/core/user_stats.py:303-317 | the new list is the first-match update; it returns the updated request, or `None` when no request has the id |
| PendingRequests.RequestStore.CleanupOldPendingRequests | src/core/user_stats.py:319-334 | the new list is the kept requests, and it reports how many were dropped |
| PendingRequests.RequestStore.Append | src/ui/forms.py:733-734 | a new request goes at the end of the list |
| TeamRoles.LoweredNames | src/core/utils.py:3 | each role name, lowered, in order |
| TeamRoles.CurrentTeamPredicatesAgree | src/core/current_team_manager.py:79-81 | the manager's role check and `has_current_team_role` agree; both hold exactly when some role lowers to "current-team" |
| TeamRoles.NoRolesNotCurrentTeam | src/core/utils.py:1-7 | an empty role list is never current-team |
| TeamRoles.CurrentTeamIgnoresCase | src/core/utils.py:1-7 | role lists whose names lower alike get the same answer |
| TeamRoles.AnyCasingAccepted | src/core/user_stats.py:10-13 | any casing of "current-team", at any position in the list, is accepted |
| TeamRoles.ValidateCurrentTeamMember | src/core/utils.py:9-15 | accepts exactly the role lists with a current-team role and raises the fixed message otherwise |
| ChannelLookup.LastMatch | src/core/channel_lookup.py:62-66 | the role kept by the loop is a key, and there is none exactly when no role is a key |
| ChannelLookup.LastMatchIsLast | src/core/channel_lookup.py:62-66 | the kept role is in the list, and no later role is a key: the last match wins |
| ChannelLookup.GetUserStatusChannel | src/core/channel_lookup.py:58-89 | the loop and lookups compute the status channel of the role list |
| ChannelLookup.ResolveSpec | src/core/channel_lookup.py:58-89 | a channel is found exactly when there is a team key, a year key and the team's category; it is "<prefix>-year-status-updates" in the last team key's category, with the last year key's prefix |
| ChannelLookup.FourthYearsHaveNoChannel | src/core/channel_lookup.py:13-19 | with "4nd_years" as the key, a member whose only year role is "4th_years" gets no channel |
| ChannelLookup.SharedTargets | src/core/channel_lookup.py:5-19 | Android and Mobile share the "Mobile" category, and Trainee Member and 1st_years share the "1st" prefix |
| Validators.ValidateDateFormat | src/ui/forms.py:290-306 | a blank text is refused as empty; a text is accepted exactly when, stripped, it has the DD-MM-YYYY shape and is a calendar date; an accepted text is the canonical spelling of its date |
| Validators.PatternStripped | src/ui/forms.py:295-299 | a DD-MM-YYYY text has nothing to strip |
| Validators.ValidatePatternText | src/ui/forms.py:290-306 | a DD-MM-YYYY text that parses is accepted as the day it parses to |
| Validators.ValidateFormattedDate | src/ui/forms.py:290-306 | a date's own spelling is accepted as that date (round trip) |
| Validators.ValidateStatusDate | src/ui/forms.py:308-316 | a status date is accepted exactly when it is a valid date not after today |
| Validators.AcceptedStatusDateIsTodayOrLate | src/ui/forms.py:416-418 | an accepted status date is late exactly when it is not today |
| Validators.RangeOfSides | src/ui/forms.py:327-341 | after the split, a range is accepted only with start not after end and not before today, with the typed spellings of its dates |
| Validators.ValidateLeaveDateRange | src/ui/forms.py:318-341 | without " to " it is refused first; an accepted range splits in two, runs from today on, has start not after end, and keeps the canonical spellings of its dates |
| Validators.FormattedHasNoBlank | src/ui/forms.py:323 | a date's spelling has no blank, so it never holds the separator |
| Validators.SplitRangeText | src/ui/forms.py:323-327 | "A to B" splits back into A and B |
| Validators.FormattedSides | src/ui/forms.py:327-341 | two canonical sides in order, from today on, are accepted as their days |
| Validators.SidesAccepted | src/ui/forms.py:332-341 | two stripped sides accepted as days in order, from today on, make the range |
| Validators.ValidateFormattedRange | src/ui/forms.py:318-341 | every range from today on, written "DD-MM-YYYY to DD-MM-YYYY", is accepted as its own days and spellings |
| Validators.RangeRespelling | src/ui/forms.py:318-341 | an accepted range is accepted again, unchanged, once spelt canonically |
| Validators.MinHours | src/ui/forms.py:359-365 | the day's minimum (by weekend and WFH) is always between 2 and 6 hours |
| Validators.ValidateHoursAsWritten | src/ui/forms.py:343-371 | as written, an accepted float neither compares below the minimum nor above 15 |
| Validators.NaNHoursAccepted | src/ui/forms.py:349-371 | the text "nan" passes every comparison and is accepted |
| Validators.ValidateHours | src/ui/forms.py:343-371 | hours are accepted exactly when they are a finite number between the day's minimum and 15, and the number is returned |
| Validators.HoursCorrectionOnlyTouchesNaN | src/ui/forms.py:343-371 | the corrected validator answers as the original on every input except NaN, with the same errors |
| Validators.WithoutBlanks | src/ui/forms.py:387 | removing the blanks never lengthens the text |
| Validators.CharSetBound | src/ui/forms.py:387 | a text has no more distinct characters than characters |
| Validators.ValidateWorkDescription | src/ui/forms.py:373-391 | accepted exactly when the stripped text has 1 to 5000 characters and at least 3 distinct non-blank characters ignoring case; returns the stripped text |
| Validators.WorkDescriptionIdempotent | src/ui/forms.py:373-391 | an accepted description is accepted again unchanged |
| Validators.AcceptedDescriptionLength | src/ui/forms.py:380-389 | an accepted description has at least three characters |
| Validators.ValidateUserRoles | src/ui/forms.py:393-414 | a missing team role is reported first, then a missing year role; success exactly when both are present |
| Validators.RolesPassIffLookupMatches | src/ui/forms.py:393-414 | the role check passes exactly when the channel lookup finds both a team key and a year key |
| Validators.FourthYearRoleRefused | src/ui/forms.py:411-412 | a team member whose year role is "4th_years" fails the year check |
| Validators.GetWeekDates | src/ui/forms.py:115-119 | Monday and Sunday of the date's week, six days apart; `None` exactly where Sunday would pass 9999-12-31 |
| CasualLeave.CasualLeaveLimit | src/ui/forms.py:43-63 | 10 exactly for 3rd-year Core Members; unlimited exactly for the other Core Members and 4th-years; 2 exactly for everyone else |
| CasualLeave.UsedDaysAppend | src/ui/forms.py:89-97 | recording a leave adds its days to the month it starts in and to no other month |
| CasualLeave.UsedDaysOnlyInMonth | src/ui/forms.py:89-97 | leaves starting in other months, or with unreadable starts, count nothing |
| CasualLeave.Allowed | src/ui/forms.py:74-87 | the allowance is unlimited exactly for a non-empty role list with an unlimited limit; a finite allowance with no record is 2 or 10 |
| CasualLeave.CheckQuota | src/ui/forms.py:616-623 | refused exactly when the allowance is finite and would be overrun; the reported remainder is never negative, is below the request, and is the allowance minus the days used when those are within it |
| CasualLeave.CoreMemberQuota | src/ui/forms.py:43-63 | a Core Member who is not a 3rd-year is never refused; a 3rd-year Core Member can be |
| CasualLeave.CasualLeaveStore.constructor | src/ui/forms.py:20-24 | the store holds the loaded history |
| CasualLeave.CasualLeaveStore.GetCasualLeaveUsage | src/ui/forms.py:67-99 | returns the days of the leaves starting in the month and the allowance |
| CasualLeave.CasualLeaveStore.RecordCasualLeave | src/ui/forms.py:102-113 | appends one entry, creating an empty record for a new user; other users are untouched |
| Ledger.NormalizeDate | src/core/user_stats.py:49-64 | a date object is spelt DD-MM-YYYY; a text is refused exactly when neither format parses it; any result has the DD-MM-YYYY shape and parses |
| Ledger.FirstWithDate | src/core/user_stats.py:89-94 | the first entry with the date, or none when no entry has it |
| Ledger.RecordNewDate | src/core/user_stats.py:101-109 | a date with no entry: exactly one entry is appended under the fresh key; the submission count rises by one, and the late count by one exactly for a late update |
| Ledger.RecordExistingDate | src/core/user_stats.py:96-100 | a date with an entry: the entry is replaced under its own key, the counts stay, and the total hours change by new minus old |
| Ledger.SumHoursAppend | src/core/user_stats.py:103-109 | appending adds the entry's hours to the sum |
| Ledger.SumHoursUpdate | src/core/user_stats.py:96-109 | replacing an entry changes the sum by the difference of the two entries' hours |
| Ledger.RecordPreservesConsistent | src/core/user_stats.py:41-111 | recording keeps the ledger consistent: total hours is the sum, total submissions is the count, late at most that, and dates and keys are distinct |
| Ledger.RecordedIsFound | src/core/user_stats.py:89-109 | after recording, the ledger holds the new submission |
| Ledger.SubmissionsOn | src/core/user_stats.py:151-156 | only entries with the date, no more than the ledger holds |
| Ledger.SubmissionsOnEmpty | src/core/user_stats.py:151-156 | no submission for the date exactly when no entry has it |
| Ledger.SubmissionsOnAtMostOne | src/core/user_stats.py:142-156 | with distinct dates, a day has at most one submission |
| Ledger.DayCountIsSubmissionsOn | src/core/user_stats.py:185-189 | the week loop's count for a day is the number of that day's submissions |
| Ledger.DayAtMostOnce | src/core/user_stats.py:185-189 | with distinct dates, a day contributes at most one entry |
| Ledger.Breakdown | src/core/user_stats.py:180-196 | one breakdown line per date |
| Ledger.WeekStep | src/core/user_stats.py:180-196 | each day of the loop adds its line, its hours and its entries |
| Ledger.BreakdownAt | src/core/user_stats.py:192-196 | the j-th line is the j-th date with its hours and weekday name |
| Ledger.DaysFrom | src/core/user_stats.py:180-181 | the n days from the start, in order |
| Ledger.WeekDatesAt | src/core/user_stats.py:181-182 | the j-th date of the week is the spelling of start + j |
| Ledger.LinesHoursAppend | src/core/user_stats.py:191 | the weekly total grows by each line's hours |
| Ledger.CountOverAtMostDates | src/core/user_stats.py:180-189 | with distinct dates, there is at most one entry per date of the list |
| Ledger.WeekAtMostSeven | src/core/user_stats.py:158-204 | a consistent ledger has at most seven submissions in a week |
| Ledger.MonthStep | src/core/user_stats.py:225-236 | each entry adds its own share to the month's hours, count, late count and dates |
| Ledger.MonthDatesMembers | src/core/user_stats.py:222-231 | the month's days worked are exactly the dates of the entries whose date parses into the month |
| Ledger.MonthLateBound | src/core/user_stats.py:233-234 | late entries of the month are among its entries |
| Ledger.MonthCounts | src/core/user_stats.py:238-243 | days worked never exceed submissions, and equal them when each date has one entry |
| Ledger.FreshMonthDate | src/core/user_stats.py:231 | with one entry per date, the last entry's date is new to the month's set |
| Ledger.RangeStep | src/core/user_stats.py:269-280 | each entry adds its own share to the range's count, hours and late hours |
| Ledger.RangeCountSplit | src/core/user_stats.py:269-280 | counts over two adjacent ranges add up |
| Ledger.RangeCountEmpty | src/core/user_stats.py:272 | a range with `from` after `to` counts nothing |
| UserStats.WithoutSubmission | src/core/user_stats.py:113-140 | never more members than listed |
| UserStats.WithoutSubmissionMembers | src/core/user_stats.py:113-140 | a member is reported exactly when they are a non-bot current-team member of the list with no entry for the date |
| UserStats.RecordedNotReported | src/core/user_stats.py:41-140 | recording a member's update for a date removes them from that date's report |
| UserStats.RecordKeepsAllConsistent | src/core/user_stats.py:41-111 | recording into one ledger of a consistent store keeps every ledger consistent |
| UserStats.UserStore.constructor | src/core/user_stats.py:15-20 | the store holds the loaded users |
| UserStats.UserStore.RecordStatusUpdate | src/core/user_stats.py:41-111 | a bad date raises and changes nothing; otherwise the user's ledger (a fresh one for a new user) records the update, other users are untouched, and consistency is kept |
| UserStats.UserStore.RecordOn | src/core/user_stats.py:66-109 | records the normalised date into the user's ledger only |
| UserStats.UserStore.FindExisting | src/core/user_stats.py:89-94 | the search loop finds the first entry with the date |
| UserStats.UserStore.GetUsersWithoutSubmissionForDate | src/core/user_stats.py:113-140 | the report for the date's DD-MM-YYYY spelling |
| UserStats.UserStore.WithoutSubmissionOn | src/core/user_stats.py:119-138 | the member loop builds the report in member order |
| UserStats.UserStore.GetUserSubmissionsForDate | src/core/user_stats.py:142-156 | the user's entries for the date, in order, and none for an unknown user; non-empty exactly when the user has an entry for the date; at most one for a consistent ledger |
| UserStats.UserStore.GetWeeklyStats | src/core/user_stats.py:158-204 | seven lines for a known user; the total is the hours on the week's dates and equals the sum of the lines; the count is the entries, at most 7; target met exactly at 32 hours; remaining is max(0, 32 - total); the fixed empty report for an unknown user |
| UserStats.UserStore.WeekTotals | src/core/user_stats.py:180-196 | the day loop yields the breakdown, the hours and the count over the dates |
| UserStats.UserStore.DaySums | src/core/user_stats.py:183-189 | the inner loop yields the day's hours and entry count |
| UserStats.UserStore.GetMonthlyStats | src/core/user_stats.py:206-243 | hours, count, late count and distinct dates of the entries in the month; zeros for an unknown user; days worked and late at most the submissions, days equal to submissions for a consistent ledger |
| UserStats.UserStore.CountUserStatisticsForRange | src/core/user_stats.py:245-293 | count, hours and late hours of the entries whose date parses into the range, and the casual leaves starting in it; nothing for an empty range |
| UserStats.LeavesInRange | src/core/user_stats.py:283-291 | the leaves whose start parses into the range, at most all of them |
| Forms.HoursBetweenFails | src/ui/forms.py:133-136 | the weekly sum fails exactly when some stored date does not parse |
| Forms.WeeklyHoursIsRangeHours | src/ui/forms.py:121-138 | where every date parses, the weekly hours are the range statistics' hours from Monday to Sunday |
| Forms.StatusCheck | src/ui/forms.py:470-520 | an accepted form has valid roles, a date not after today (late exactly when before today), "yes" or "no" for WFH, hours within the day's bounds, no earlier entry for the date, a valid description and blockers of at most 500 characters; conversely, a form that passes every check, including a readable week, is accepted with exactly those values |
| Forms.StatusFormAppends | src/ui/forms.py:491-532 | a status for a date without an entry appends exactly one entry and raises the submission count by one |
| Forms.SubmitStatus | src/ui/forms.py:470-532 | a refused form changes nothing; an accepted one records the plan; consistency is kept |
| Forms.CasualCheck | src/ui/forms.py:591-606 | a form is accepted exactly when the roles, the range and a reason of at most 500 characters all pass, and then yields the validated range |
| Forms.RecordedLeaveCounts | src/ui/forms.py:609-626 | a recorded leave counts in full towards the month it starts in |
| Forms.SubmitCasualLeave | src/ui/forms.py:588-626 | a refused check changes nothing; an accepted range goes to the quota step |
| Forms.ApplyCasualLeave | src/ui/forms.py:608-626 | an overrun of a finite allowance is refused and changes nothing; otherwise the leave is recorded, and the month's usage stays within a finite allowance |
| Forms.CheckReason | src/ui/forms.py:683-689 | a reason is accepted exactly when, stripped, it has 1 to 500 characters; the stripped text is kept |
| Forms.MedicalCheck | src/ui/forms.py:675-699 | a form is accepted exactly when the roles, the range and the reason pass and the mode is "day-off" or "wfh"; it then carries the validated range, the stripped reason and the mode |
| Forms.SpecialCheck | src/ui/forms.py:772-799 | a form with valid roles and range is refused for more than 92 days; otherwise it is accepted exactly when the reason passes, with the validated range and the stripped reason |
| Forms.InitialStatus | src/ui/forms.py:703-716 | "auto-approved" exactly for a Core Member, "pending" otherwise |
| Forms.SubmitMedicalLeave | src/ui/forms.py:672-734 | a refused form stores nothing; an accepted one appends the new request, auto-approved for a Core Member |
| Forms.SubmitSpecialLeave | src/ui/forms.py:769-823 | the same for special leave, without a mode |
| Warnings.ExemptIffUnlimitedCasualLeave | src/core/warnings.py:22-34 | the members exempt from warnings are exactly those with unlimited casual leave |
| Warnings.UserHasLeaveOnDate | src/core/warnings.py:36-77 | true exactly when an approved or auto-approved request of the user, or a casual leave of theirs, covers the day; unreadable dates are skipped |
| Warnings.AnyRequestCovers | src/core/warnings.py:44-57 | the request loop finds a covering approved request exactly when there is one |
| Warnings.AnyLeaveCovers | src/core/warnings.py:65-75 | the casual-leave loop finds a covering leave exactly when there is one |
| Warnings.ShouldGiveWarning | src/core/warnings.py:79-114 | a warning is given exactly to a non-bot current-team member who is not exempt, has a team and a year role, is not on leave and has no entry; each skip reason is stated as an if-and-only-if over the earlier checks, in the source's order |
| Warnings.ApprovedLeaveProtects | src/core/warnings.py:44-55 | an approved leave covering the day protects its member |
| Warnings.UnapprovedRequestsIgnored | src/core/warnings.py:45 | pending and denied requests protect nobody |
| Warnings.WarningKeysDistinct | src/core/warnings.py:120 | keys of different users never collide, whatever the months |
| Warnings.GetUserWarningCount | src/core/warnings.py:149-159 | the stored count for the queried key, 0 when the key is absent |
| Warnings.QueryReadsWarningKey | src/core/warnings.py:149-159 | from year 1000 on, asking for the current month reads the key `give_warning` writes |
| Warnings.WarningReadBack | src/core/warnings.py:116-159 | from year 1000 on, the current-month query after a warning reads the stored count, one more than before, and other users' counts are unchanged |
| Warnings.EscalationFor | src/core/warnings.py:131-147 | 1st probation exactly at count 3 when the role exists; 2nd probation exactly above 3 when the role exists, dropping a held 1st probation |
| Warnings.Without | src/core/warnings.py:143-144 | `remove_roles` leaves every other role and drops the named one |
| Warnings.WithRole | src/core/warnings.py:137-145 | `add_roles` keeps the roles and adds the named one |
| Warnings.ProbationThresholds | src/core/warnings.py:131-147 | nobody is on probation before the third warning; from the fourth, with both roles present, a member holds 2nd probation and not 1st |
| Warnings.CurrentMonthOnly | src/core/warnings.py:161-172 | the reset keeps a subset of the keys, with their counts |
| Warnings.ResetIdempotent | src/core/warnings.py:161-172 | resetting twice in a month is resetting once |
| Warnings.ResetKeepsOnlyCurrentMonth | src/core/warnings.py:161-172 | each user's count for the current month survives, and their count for any other month is dropped |
| Warnings.KeySuffix | src/core/warnings.py:169 | a key ends in "-<month>" exactly when it is that month's key |
| Warnings.WarningStore.constructor | src/core/warnings.py:11-15 | the store holds the loaded counts |
| Warnings.WarningStore.GiveWarning | src/core/warnings.py:116-147 | the month's count rises by one, no other key changes, the escalation is for the new count, and from year 1000 on the current-month query reads the new count |
| Warnings.WarningStore.ResetMonthlyWarnings | src/core/warnings.py:161-172 | keeps exactly the current month's keys, and reports how many were dropped |
| CurrentTeam.TeamIds | src/core/current_team_manager.py:58-77 | the ids are exactly those of the non-bot members with a current-team role |
| CurrentTeam.TeamIdsBound | src/core/current_team_manager.py:58-77 | never more ids than members |
| CurrentTeam.MembersIn | src/core/current_team_manager.py:113-120 | exactly the listed members whose ids are cached, no more than listed |
| CurrentTeam.CollectTeamIds | src/core/current_team_manager.py:64-70 | the scan collects the team ids |
| CurrentTeam.ListMembersIn | src/core/current_team_manager.py:113-120 | the listing loop yields the members with cached ids, in guild order |
| CurrentTeam.Accepted | src/core/current_team_manager.py:164-166 | exactly the non-bot members with cached ids, in order |
| CurrentTeam.RebuiltMembersAreTheTeam | src/core/current_team_manager.py:101-120 | right after a rebuild, the listed members are exactly the guild's non-bot current-team members |
| CurrentTeam.CurrentTeamManager.constructor | src/core/current_team_manager.py:16-19 | the cache starts as loaded |
| CurrentTeam.CurrentTeamManager.UpdateCache | src/core/current_team_manager.py:58-77 | the guild's entry is rebuilt and stamped now, other guilds untouched; the cache is then valid |
| CurrentTeam.CurrentTeamManager.IsCurrentTeamMember | src/core/current_team_manager.py:83-99 | bots never; a valid cache answers unchanged; a stale or missing one is rebuilt first |
| CurrentTeam.CurrentTeamManager.GetCurrentTeamMembers | src/core/current_team_manager.py:101-120 | rebuilds when forced or stale, then lists the cached members in guild order |
| CurrentTeam.CurrentTeamManager.GetCurrentTeamCount | src/core/current_team_manager.py:122-127 | the size of the id set, refreshed when stale, and then at most the number of members |
| CurrentTeam.CurrentTeamManager.ForceRefreshCache | src/core/current_team_manager.py:129-131 | always rebuilds |
| CurrentTeam.CurrentTeamManager.RemoveMemberFromCache | src/core/current_team_manager.py:133-137 | drops one id from a cached guild and keeps its time stamp; an uncached guild is left alone |
| CurrentTeam.CurrentTeamManager.AddMemberToCache | src/core/current_team_manager.py:139-144 | adds one id to a cached guild and keeps its time stamp; an uncached guild is left alone |
| CurrentTeam.CurrentTeamManager.FilterCurrentTeamMembers | src/core/current_team_manager.py:164-166 | keeps, in order, the members accepted against the ids valid at the start or rebuilt by the first query |
| Bot.RoleDiff | src/main.py:109-123 | add exactly when the current-team role was gained, and remove exactly when it was lost |
| Bot.RoleDiffSymmetry | src/main.py:109-123 | no change patches nothing, and undoing a change swaps add and remove |
| Bot.OnMemberUpdate | src/main.py:105-123 | the patch follows the role change and other guilds are untouched; no change leaves the cache as it was; after an add or a remove, a cached guild keeps its time stamp and holds the member exactly when they have the role |
| Bot.TargetWeekMonday | src/main.py:294-297 | the target is a Monday, `week_offset` weeks back; `None` exactly where it leaves the calendar |
| Bot.MondayStep | src/main.py:297 | whole weeks away from a Monday is a Monday |
| Bot.SummaryRows | src/main.py:345-353 | only members with submissions get a row, no more rows than members; target met exactly at 32 hours |
| Bot.SummaryRowsStep | src/main.py:345-353 | one more member adds their row when they have submissions in the week |
| Bot.InsertByHours | src/main.py:356 | insertion adds exactly the new row |
| Bot.InsertKeepsSorted | src/main.py:356 | inserting into a list sorted by hours keeps it sorted |
| Bot.SortedRows | src/main.py:356 | the sorted rows are a permutation of the rows, with hours never increasing |
| Bot.ShownIsPrefix | src/main.py:366 | the first 15 rows keep their order |
| Bot.ShownIsTop | src/main.py:366 | no row left out has more hours than a row shown |
| Bot.SummaryShowsTopHours | src/main.py:340-375 | the summary shows min(15, n) rows, sorted by hours, all drawn from the rows and with submissions, and none left out has more hours than one shown |
| Bot.CollectRows | src/main.py:345-353 | the loop builds the rows of the team's members for the week |
| Bot.RowFor | src/main.py:346-353 | a member's row comes from their weekly statistics, only when they have submissions |
| Bot.WeeklySummary | src/main.py:339-375 | the team is listed from the cache, refreshed when stale; the count is the team's size; the shown rows are the top 15 of the sorted rows |
| Bot.CandidatesAmong | src/main.py:459-476 | exactly the non-submitters who are candidates |
| Bot.CandidatesStep | src/main.py:460-476 | one more non-submitter is appended exactly when they are a candidate |
| Bot.ReminderCandidates | src/main.py:456-476 | the reminder candidates are the non-submitters that pass the candidate filter, against the cache as it stood or as first rebuilt |
| Bot.CheckCandidate | src/main.py:461-476 | the checks of one member decide exactly whether they are a candidate |
| Bot.FilterCandidates | src/main.py:459-476 | the filter loop keeps exactly the candidates, in order |
| Bot.CandidatesExactly | src/main.py:456-476 | a member is reminded exactly when they are a non-bot current-team member of the guild with no entry for today, have cached ids, are not on leave and have a team and a year role |
| Bot.WarnedWereReminded | src/main.py:389-476 | a member the nightly check would warn was among the evening's reminder candidates |
| Bot.FindGroup | src/main.py:493 | the group with the channel, or none when no group has it |
| Bot.TotalSizeUpdate | src/main.py:498 | appending to one group changes the total by the difference in its size |
| Bot.TotalSizeAppend | src/main.py:494-497 | a new group adds its size |
| Bot.AddToGroupsMembers | src/main.py:492-498 | adding a member under a channel adds exactly that member to the groups |
| Bot.AddKeepsWellGrouped | src/main.py:492-498 | adding a member under its own status channel keeps the groups well formed and adds one member |
| Bot.OpenGroupKeepsWellGrouped | src/main.py:493-497 | opening a group for a new channel keeps the groups well formed |
| Bot.ExtendGroupKeepsWellGrouped | src/main.py:498 | appending to a channel's own group keeps the groups well formed |
| Bot.GroupedPartitions | src/main.py:484-505 | the groups have distinct, non-empty channels; every grouped member's own status channel is its group's channel; and the groups together hold exactly the candidates with a channel, each as often as it is a candidate, so each lands in the one group for its channel |
| Bot.GroupedHoldsCandidates | src/main.py:487-498 | the members of all groups, as a multiset, are the candidates with a status channel |
| Bot.GroupedWellFormed | src/main.py:487-498 | the groups have distinct channels, are never empty, hold only members whose status channel is theirs, and their sizes add up to the number of candidates with a channel |
| Bot.GroupByChannel | src/main.py:484-505 | the grouping loop builds the groups |
| Bot.Mentions | src/main.py:515 | the mention of each member, in order |
| Bot.ReminderBatch | src/main.py:514-520 | the first ten members are mentioned, and "and N others" appears exactly when there are more than ten; mentioned plus others is the group's size |
| Bot.TotalSizePrefix | src/main.py:509-526 | the count grows by each group's size |
| Bot.SendReminders | src/main.py:507-530 | one message per group for its channel, and the reminded count is all the grouped members |
| Bot.RemindedCount | src/main.py:484-530 | the reminded count is the number of candidates with a status channel, at most all candidates |
| Bot.WithChannelBound | src/main.py:484-505 | candidates with a channel are at most all candidates |
| DateText.FormatDMY | src/core/user_stats.py:51 | a date's `%d-%m-%Y` spelling has the DD-MM-YYYY shape |
| DateText.FormatYM | src/core/warnings.py:120 | the `%Y-%m` spelling has seven characters with a dash at position 4 |
| DateText.FieldValue | src/ui/forms.py:302 | a matched day field is 1 to 31 and a month field 1 to 12 |
| DateText.DateOf | src/ui/forms.py:302 | a date exists exactly for a valid (year, month, day) and has those fields |
| DateText.ParseFormatDMY | src/core/user_stats.py:56-57 | parsing the spelling of a date gives the date back |
| DateText.ParseISO | src/core/user_stats.py:61-62 | parsing the `%Y-%m-%d` spelling of a date gives the date back |
| DateText.FormatParseDMY | src/ui/forms.py:298-306 | a DD-MM-YYYY text that parses is the spelling of its date |
| DateText.ParseFormatsDisjoint | src/core/user_stats.py:54-64 | no text parses under both formats, so the fallback never changes the result of the first |
| DateText.SameCivil | src/ui/forms.py:302 | a day is the only day with its (year, month, day) |
| Calendar.Weekday | src/ui/forms.py:117 | `weekday()` is in 0..6 |
| Calendar.MondayOfWeek | src/ui/forms.py:117 | subtracting the weekday lands on a Monday within the calendar |
| Calendar.FromOrdinal | src/core/user_stats.py:181 | a day has a valid (year, month, day) |
| Calendar.ToFromOrdinal | src/core/user_stats.py:181 | `fromordinal` inverts `toordinal` on days |
| Calendar.ToDay | src/ui/forms.py:302 | the day of a valid (year, month, day) has those fields |
| Calendar.FromToOrdinal | src/ui/forms.py:302 | `toordinal` of a valid date is in range and `fromordinal` gives it back |
| Calendar.OrdinalStrictlyIncreasing | src/ui/forms.py:335 | a valid date before another, by (year, month, day), has the smaller ordinal |
| Text.Strip | src/ui/forms.py:295 | the strip is no longer than the text and has no whitespace at its ends |
| Text.StripIdempotent | src/ui/forms.py:327-332 | stripping twice is stripping once |
| Text.Lower | src/core/utils.py:3 | each character lowered, in place |
| Text.NatToStringValue | src/core/warnings.py:120 | `str(n)` spells n |
| Text.Format02IsPad2 | src/core/warnings.py:158 | `{month:02d}` is the two-digit spelling of the month |
| Text.NatToStringFourDigits | src/core/warnings.py:158 | `str` of a four-digit year is its `%Y` spelling |
| Text.FindFrom | src/ui/forms.py:320-323 | the first occurrence at or after a position, or none |
| Text.Split | src/ui/forms.py:323 | `split` gives at least one part |
| Text.SplitTwo | src/ui/forms.py:323-327 | with one occurrence, the two parts are rejoined by the separator, and neither holds it |

## Left out

- Reading and writing the JSON files is left out: each store's document is a field of its class. File errors, an unreadable file and the reset of a pending file that does not hold a list are not modelled.
- Discord I/O is left out: messages, embeds, replies, followups, threads, role objects, and posts to the tracking and request channels. Each handler's outcome says what would be sent. So are the weekly-progress note and the weekly target notes of the status form.
- `get_user_status_channel` creating a missing channel is left out: the target is named, and only a missing category gives none.
- `export_to_csv`, `count_user_statistics` and `export_current_team_csv` are left out (CSV I/O). So are `/export_csv`, `/setup_support_channel`, the views of `main.py`, `on_ready` and the `current_team_only` decorator.
- `check_weekly_target` is not modelled separately: only its failure on an unreadable stored date, part of `Forms.StatusCheck`, is kept.
- `handle_auto_approval` is not modelled separately: it appends the request like the pending path does, and the posts it makes are left out.
- The loop of `check_daily_warnings` is left out: its decision per member is `Warnings.ShouldGiveWarning` and its write is `Warnings.WarningStore.GiveWarning`. Its skip-reason log is left out too.
- `weekly_report` for a single user is left out; the all-member summary is modelled.
- Send failures (the try/except around `channel.send`) are left out: every send is taken to succeed.
- Errors from the Discord lookups are left out too.
- The time zone (IST) is left out: "today" and "now" are parameters.
- UUIDs are a parameter, assumed fresh.
- `created_at` is an optional microsecond count, with absence standing for an unreadable ISO text; ISO parsing itself is not modelled.
- Floating point: hours are `real`, with no rounding. `validate_hours` sees its input as blank, not a number, or a float that is finite, infinite or NaN; how `float()` reads text is not modelled.
- `str.lower()` and digit tests cover ASCII only. `str.isspace()` is modelled on Python's whitespace set, without the Unicode database beyond it.
- `strftime("%Y")` is taken to pad years below 1000 to four digits, which glibc does not do.
- Discord's input length limits on the modals are not modelled.
- Warnings.QueryReadsWarningKey: only stated from year 1000 on, because `str(year)` and `%Y` differ below that.
- Bot.SortedRows: states sorted and a permutation, not the stability of Python's sort; ties are kept in arrival order by `Bot.InsertByHours`, but this is not proved.
- Bot.WeeklySummary: requires the target week to end by 9999-12-31, where Python would raise `OverflowError`.
- Bot.WeeklySummary: the `is_current_team_member` check of the single-user report is not modelled.
- CurrentTeam.CurrentTeamManager.FilterCurrentTeamMembers: models a list of members from one guild; the source looks up each member's own guild.
- Forms.StatusCheck: modelled with the corrected hours validator `Validators.ValidateHours`, so hours text "nan" is refused; the handler as written accepts it and records NaN hours (see Findings).
- Forms.SubmitStatus: follows `Forms.StatusCheck`, so it does not record the NaN hours the handler as written records.
- Forms.StatusFormAppends: stated for any plan whose date has no entry, which includes every plan `Forms.StatusCheck` accepts.
- Approval.Respond: does not check for an already-handled request, because the source does not either.
- UserStats.UserStore.GetWeeklyStats: requires the week to end by 9999-12-31 for a known user, where Python would raise `OverflowError`.

## Findings

| source | as written | input that shows it | evidently intended | confidence | as-written member | corrected member |
|---|---|---|---|---|---|---|
| src/ui/forms.py:349-371 | `float(hours_str)` accepts "nan". Every comparison with NaN is false, so NaN passes both range checks and the minimum | hours text "nan" on any day | hours must be a number between the minimum and 15 | not executed; high | Validators.NaNHoursAccepted | Validators.ValidateHours |
| src/ui/buttons.py:86-101 | Approve and Deny call `update_pending_request` before `_check_permissions`. A refused press has already written the status and approver | the requester presses Approve on their own pending request | a refused press changes nothing | not executed; high | Approval.SelfApprovalIsStored | Approval.Respond |
