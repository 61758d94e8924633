# shift-roster, modelled in Dafny

shift-roster fills a shop's monthly staff calendar. Five staff (u, i, k, t
and m) each get one of seven codes per day: the working shifts A and B, m's
short shift S, Off (`-`), paid leave (PL), a manually entered closure
(Closed), or the generator's closure marker (ShopClosed). The generator
applies a fixed rule set to every day of a month:

1. Close Mondays, Tuesdays and listed closed days.
2. Clear leftover ShopClosed markers on open days.
3. Set aside staff on paid leave or manually closed.
4. Give m a code.
5. Give the u/i and k/t pairs opposite codes, balanced on the first member's
   A/B history.
6. Hand the remaining staff A or B greedily, keeping the day balanced.

The screen around it toggles a date through normal, holiday and closed. It
edits single cells, mirroring a pair member's A or B onto the partner. It
merges a generated month into the stored schedule and shows per-row and
per-column tallies.

The project has five modules:

- `Calendar` (calendar.dfy): month lengths and weekdays on the proleptic
  Gregorian calendar, with 0-indexed months. Also the `YYYY-MM-DD` date keys
  and a proof that distinct dates get distinct keys.
- `Roster` (roster.dfy): staff, shift codes, the schedule map and the pair
  validator.
- `Generator` (generator.dfy):
  - Specification functions for one day's rule set (`GenerateDay`) and for
    the month (`RunDays`, `Generate`).
  - The generator itself as imperative methods: a loop over the days that
    updates a copy of the schedule and the running tallies.
  - `GenerateMonthlyRoster` is proved to return exactly `Generate`.
- `GeneratorProofs` (generator_proofs.dfy): what a run promises, for every
  coin and every service order.
- `MonthlyRoster` (monthly_roster.dfy): the screen's state transitions and
  tallies.

A schedule is a `map<string, map<Staff, Shift>>`. A staff member missing
from a day's map is unset. Unset differs from a stored Off, because the
source tests truthiness and every code, `-` included, is truthy.

The generator's random choices are inputs, one `DayChoice` per day:

- `uiCoin` and `ktCoin` replace the `Math.random() > 0.5` coin. Each pair
  uses its coin only when its history is level.
- `order` replaces the shuffle of the pending staff. It is any order of the
  five staff, and the pending staff are served in that order.

Every property below holds for all choices. `isHoliday` is the predicate
`Roster.IsHoliday`. It enters the model through `Generator.IsShortDay`, m's
short-shift day.

The model follows the code where it departs from what its own comments
suggest:

- The generator's doc comment calls the input schedule "existing manual
  overrides" (app/utils/rosterGenerator.js:66). Yet m's code is recomputed
  on every open day where m is available, even when it was set by hand
  (line 130).
- On closed days, paid leave is overwritten by ShopClosed.
- The same-day A/B tally starts from m's code and the pair assignments only.
  Staff who already held A or B are not counted.

## Model

| member | source | states |
|---|---|---|
| Calendar.IsLeapYear | app/utils/rosterGenerator.js:22-24 | The Gregorian rule behind `new Date(year, month + 1, 0)`: divisible by 4, and not by 100 unless by 400. It has no contract of its own. Its consequences are stated by DaysInMonth (February has 29 days exactly in these years) and LeapYearLength. |
| Calendar.DaysInMonth | app/utils/rosterGenerator.js:22-24 | A month has 28 to 31 days. February has 29 exactly in Gregorian leap years, and the other months have 30 exactly for April, June, September and November. |
| Calendar.LeapYearLength | app/utils/rosterGenerator.js:22-24 | A leap year is 366 days long and any other year 365. |
| Calendar.YearOfMonths | app/utils/rosterGenerator.js:22-24 | The twelve month lengths add up to the length of the year: 366 days in a leap year, 365 otherwise. |
| Calendar.DayOfWeek | app/utils/rosterGenerator.js:30-33 | The weekday of the date's day number, counted from 0000-01-01, a Saturday. It has no contract of its own. The WeekdayAdvances lemmas and AprilFirst2025IsTuesday state its behaviour. |
| Calendar.WeekdayAdvancesWithinMonth | app/utils/rosterGenerator.js:30-33 | The weekday of day d+1 is the weekday after that of day d. |
| Calendar.WeekdayAdvancesAcrossMonth | app/utils/rosterGenerator.js:30-33 | The weekday of the 1st of the next month follows the weekday of the last day of the month. |
| Calendar.WeekdayAdvancesAcrossYear | app/utils/rosterGenerator.js:30-33 | 1 January follows 31 December of the year before. |
| Calendar.AprilFirst2025IsTuesday | app/utils/rosterGenerator.js:30-33 | 2025-04-01 (month index 3) is a Tuesday and 2025-04-02 is a Wednesday. |
| Calendar.NextNumber | app/utils/rosterGenerator.js:30-33 | The weekday of day number n+1 is the weekday after that of day number n. |
| Calendar.Decimal | app/utils/rosterGenerator.js:87 | `String(n)` is non-empty, has one character exactly for n below 10, and holds only digits. |
| Calendar.Pad2 | app/utils/rosterGenerator.js:87 | `padStart(2, '0')` gives two characters for every number below 100. Pad2Injective states that it is injective there. |
| Calendar.DecimalInjective | app/utils/rosterGenerator.js:87 | Distinct numbers have distinct decimal notations. |
| Calendar.Pad2Injective | app/utils/rosterGenerator.js:87 | Two-digit zero padding is injective below 100. |
| Calendar.SplitFieldsInjective | app/utils/rosterGenerator.js:87 | Two `a-bb-c` strings whose first fields hold no dash are equal only field by field. |
| Calendar.DateStr | app/utils/rosterGenerator.js:87 | The key template, also used by `makeDateStr` (app/components/MonthlyRoster.js:127). It has no contract of its own. DateStrShape and DateStrInjective state what it does. |
| Calendar.DateStrShape | app/utils/rosterGenerator.js:87 | For days below 100 a key is the year's digits, a dash, the two month digits, a dash and the two day digits. |
| Calendar.DateStrInjective | app/utils/rosterGenerator.js:87 | Two `YYYY-MM-DD` keys are equal exactly when year, month and day are, so each day of a month has its own key. The key is the same one `makeDateStr` builds. |
| Roster.AllStaffListed | app/utils/rosterGenerator.js:5-11 | Every staff member is in the fixed roster list u, i, k, t, m. |
| Roster.IsHoliday | app/utils/rosterGenerator.js:58-60 | A date is a holiday exactly when its key is in the holiday set. It has no contract of its own. It enters the generator through Generator.IsShortDay, and GenerateMShift states its effect. |
| Roster.Opposite | app/utils/rosterGenerator.js:150-159 | The partner's code is the other of A and B. |
| Roster.ValidateRoster | app/utils/rosterGenerator.js:38-53 | Invalid exactly when u and i, or k and t, hold the same A or B. The u/i message wins when both pairs collide, and the k/t message is returned otherwise. |
| Roster.OnlyWorkShiftsConflict | app/utils/rosterGenerator.js:45-51 | S, Off, PL, Closed, ShopClosed and missing entries never make a pair collide. |
| Generator.WithoutShopClosed | app/utils/rosterGenerator.js:95-102 | The cleared day keeps exactly the entries that are not ShopClosed, with their codes. |
| Generator.PairAssigned | app/utils/rosterGenerator.js:150-172 | The reference for the pair rule. It has no contract of its own. PairAssignedEntry, OpenDayPairUI and OpenDayPairKT state what it does, and AssignPair is proved to compute it. |
| Generator.Pending | app/utils/rosterGenerator.js:175-176 | The pending list holds exactly the staff of the order who are available and still unset. |
| Generator.Remaining | app/utils/rosterGenerator.js:178-186 | The reference for the greedy step. It has no contract of its own. RemainingFrame, RemainingCovers, RemainingCodes and GreedyTallyClosedForm state what it does, and AssignRemaining is proved to compute it. |
| Generator.GenerateDay | app/utils/rosterGenerator.js:92-186 | The reference for one day's rule set. It has no contract of its own. GenerateDaySettles, OpenDayStaff, OpenDayGreedy, OpenDayPairUI, OpenDayPairKT and SettledIsFixed state what it does, and ProcessDay is proved to compute it. |
| Generator.Generate | app/utils/rosterGenerator.js:70-190 | The reference for a whole run: the day rule folded over days 1 to the month's length. It has no contract of its own. The GeneratorProofs.Generate lemmas state what it does, and GenerateMonthlyRoster is proved to compute it. |
| Generator.CountHoldingStep | app/utils/rosterGenerator.js:77-84 | Counting one more date adds one exactly when the staff member holds the code on it. |
| Generator.DatesHoldingStep | app/utils/rosterGenerator.js:77-84 | One more date joins the matching dates exactly when the staff member holds the code on it. |
| Generator.CountHistory | app/utils/rosterGenerator.js:74-84 | The loop over every date of the input returns u's and k's A/B counts over the whole input map. |
| Generator.ClearShopClosed | app/utils/rosterGenerator.js:95-102 | The loop over the staff deletes exactly the ShopClosed entries. |
| Generator.MarkShopClosed | app/utils/rosterGenerator.js:104-113 | The loop over the staff gives everyone ShopClosed, except a manual Closed, which stays. |
| Generator.AssignRemaining | app/utils/rosterGenerator.js:178-186 | The loop serves the pending staff in order, each with the greedy choice, and returns the day's final tally. |
| Generator.AssignPair | app/utils/rosterGenerator.js:150-172 | The inner pair helper, guarded as in the source, returns exactly the pair rule's day, history and day tally. |
| Generator.FillOpenDay | app/utils/rosterGenerator.js:115-186 | Availability, m's rule, the two pair rules and the remaining staff, applied step by step, give the open-day outcome together with both pair histories. |
| Generator.ProcessDay | app/utils/rosterGenerator.js:87-186 | One pass of the loop body (clear an open day, mark a closed day, fill an open day) returns exactly the day's rule-set outcome. |
| Generator.GenerateMonthlyRoster | app/utils/rosterGenerator.js:70-190 | The loop over the days returns exactly the month specification `Generate`. Its invariant is that the schedule and histories after d days equal the fold of the day rule over days 1..d. |
| GeneratorProofs.GreedyTallyClosedForm | app/utils/rosterGenerator.js:178-186 | After n greedy choices the day has A = max(a0, min(a0+n, ceil((a0+b0+n)/2))), and A+B grows by exactly n. The number of A's depends only on the starting tally and the pending count. |
| GeneratorProofs.RemainingFrame | app/utils/rosterGenerator.js:175-186 | Staff who are not pending keep their entries. |
| GeneratorProofs.RemainingCovers | app/utils/rosterGenerator.js:175-186 | Every pending staff member ends with A or B. |
| GeneratorProofs.RemainingCodes | app/utils/rosterGenerator.js:143-186 | The j-th staff member served gets A exactly when the running day tally has A <= B at that moment. The day's final tally is the same for every service order. |
| GeneratorProofs.PendingDistinct | app/utils/rosterGenerator.js:175-176 | When the order repeats no one, neither does the pending list, as the filter followed by a shuffle guarantees. |
| GeneratorProofs.PendingLength | app/utils/rosterGenerator.js:175-176 | Whatever the order of the five staff, the pending list repeats no one and is as long as the set of available, unset staff. |
| GeneratorProofs.PendingOrderFree | app/utils/rosterGenerator.js:175-176 | The shuffle does not change how many staff are pending. |
| GeneratorProofs.PairAssignedEntry | app/utils/rosterGenerator.js:150-172 | The pair rule never changes a set entry. It adds only A or B, only to the pair, and always to both members when both are available and unset. |
| GeneratorProofs.PairsAssignedStaff | app/utils/rosterGenerator.js:122-172 | After m's rule and the pair rules, no entry is ShopClosed. Staff other than m keep a set code, unavailable staff keep theirs, and an available m holds m's code. |
| GeneratorProofs.OpenDayStaff | app/utils/rosterGenerator.js:95-186 | On an open day every staff member ends with a code that is not ShopClosed. PL and Closed stay. Staff other than m keep an A, B, S or Off they held. An available m gets m's code. |
| GeneratorProofs.OpenDayKeeps | app/utils/rosterGenerator.js:95-186 | OpenDayStaff's five clauses for all staff at once: everyone has a code other than ShopClosed, PL and Closed stay, staff other than m keep a held A, B, S or Off, and an available m gets m's code. |
| GeneratorProofs.OpenDayGreedy | app/utils/rosterGenerator.js:173-186 | On an open day the pending staff are exactly the available, unset staff after m and the pairs. The j-th of them gets A exactly when the day has no more A than B after j greedy choices. For every shuffle, the day's tally ends as the greedy tally over the number of those staff. |
| GeneratorProofs.OpenDayPairUI | app/utils/rosterGenerator.js:150-168 | When u and i are both unset, they get opposite codes, with u's code from u's history and the coin on a tie, and u's history counts that code. Otherwise u's history is unchanged. |
| GeneratorProofs.OpenDayPairKT | app/utils/rosterGenerator.js:150-172 | The same for k and t, with k's history. |
| GeneratorProofs.GenerateDaySettles | app/utils/rosterGenerator.js:95-186 | After the rule set, a closed day holds only Closed and ShopClosed for everyone. An open day holds a non-ShopClosed code for everyone, with m's code on an available m. |
| GeneratorProofs.SettledIsFixed | app/utils/rosterGenerator.js:95-186 | A settled day comes out of the rule set unchanged, and the pair histories are not counted, whatever the choices. |
| GeneratorProofs.GenerateDayBalances | app/utils/rosterGenerator.js:150-172 | One day never widens a pair's A/B history gap beyond max(previous gap, 1). |
| GeneratorProofs.MonthKeysStep | app/utils/rosterGenerator.js:86-87 | The keys of days 1..n are those of days 1..n-1 plus day n's key. |
| GeneratorProofs.RunDaysFrame | app/utils/rosterGenerator.js:71-93 | A key that is not one of the first n days' keys is present and unchanged exactly as in the input. |
| GeneratorProofs.StepDayKeys | app/utils/rosterGenerator.js:93 | A day adds its own key and no other, and leaves every other key's entry alone. |
| GeneratorProofs.RunDaysKeys | app/utils/rosterGenerator.js:86-93 | After n days the keys are the input's plus the first n days' keys. |
| GeneratorProofs.RunDaysLater | app/utils/rosterGenerator.js:86-187 | No later day touches day d's entry. |
| GeneratorProofs.RunDaysInput | app/utils/rosterGenerator.js:86-93 | Day d still sees its input entry when its turn comes. |
| GeneratorProofs.RunDaysDay | app/utils/rosterGenerator.js:86-187 | Day d's entry in the result is the rule set applied to its input entry and to the histories left by days 1..d-1. |
| GeneratorProofs.GenerateKeepsOtherDates | app/utils/rosterGenerator.js:71-93 | Entries for dates outside the target month are returned unchanged, and no such date is added. |
| GeneratorProofs.GenerateCoversMonth | app/utils/rosterGenerator.js:86-93 | The result's keys are the input's keys plus every date of the month. |
| GeneratorProofs.GenerateClosedDay | app/utils/rosterGenerator.js:86-113 | On a Monday, a Tuesday or a listed closed day, everyone ends ShopClosed except staff who held Closed, who keep it. PL is overwritten. |
| GeneratorProofs.GenerateOpenDay | app/utils/rosterGenerator.js:95-186 | On an open day no one holds ShopClosed and everyone has a code. PL and Closed are unchanged, and staff other than m keep an A, B, S or Off they held. |
| GeneratorProofs.GenerateMShift | app/utils/rosterGenerator.js:122-131 | On an open day with m available, m gets S exactly on a Wednesday, Thursday or Friday not in the holidays, and B otherwise, whatever m held. |
| GeneratorProofs.GeneratePairUI | app/utils/rosterGenerator.js:150-168 | When u and i are both unset on an open day, they end with opposite A/B codes. u gets B if u's running A-tally exceeds the B-tally and A if it is below. The running history then counts u's code. |
| GeneratorProofs.GeneratePairKT | app/utils/rosterGenerator.js:150-172 | The same for k and t, with k's running history. |
| GeneratorProofs.PairHistoriesStayBalanced | app/utils/rosterGenerator.js:74-172 | Over the month, each pair's A/B history gap stays within max(initial gap, 1). |
| GeneratorProofs.GenerateSettles | app/utils/rosterGenerator.js:86-187 | Every day of the month is settled in the output. |
| GeneratorProofs.StepOverSettled | app/utils/rosterGenerator.js:86-187 | The rule set leaves a settled day's entry as it is. |
| GeneratorProofs.RunOverSettled | app/utils/rosterGenerator.js:86-187 | Running the days over a schedule whose month is settled changes nothing. |
| GeneratorProofs.GenerateIdempotent | app/utils/rosterGenerator.js:70-190 | Generating the same month again over the output, with any choices, returns the output unchanged. |
| MonthlyRoster.ToggleDayStatus | app/components/MonthlyRoster.js:60-73 | A date's status moves Normal to Holiday to Closed to Normal. Every other date keeps its membership in both sets, and disjoint sets stay disjoint. |
| MonthlyRoster.ToggleThriceRestores | app/components/MonthlyRoster.js:60-73 | Three toggles restore both sets, unless the date was in both to begin with. |
| MonthlyRoster.PartnerOf | app/components/MonthlyRoster.js:88-91 | u and i are each other's partners, and so are k and t. |
| MonthlyRoster.HandleChange | app/components/MonthlyRoster.js:83-95 | The chosen cell holds the value and every other date's entry is unchanged. An A or B on u, i, k or t gives the partner the opposite code. No other staff member's code on that date changes. |
| MonthlyRoster.HandleChangeResolvesPair | app/components/MonthlyRoster.js:87-92 | After an A or B on a pair member, that pair does not collide, and the validator does not report that pair's warning for the date. |
| MonthlyRoster.HandleChangeIdempotent | app/components/MonthlyRoster.js:83-95 | Repeating an edit changes nothing further. |
| MonthlyRoster.CellShift | app/components/MonthlyRoster.js:202 | A cell shows its stored code, or Off when it is unset. |
| MonthlyRoster.CellShowsChange | app/components/MonthlyRoster.js:202 | After an edit the cell shows the chosen value. |
| MonthlyRoster.MergeGenerated | app/components/MonthlyRoster.js:75-78 | The spread merge keeps every key of both schedules. Generated entries win, and other entries are kept. |
| MonthlyRoster.MergeOfGeneratedIsGenerated | app/components/MonthlyRoster.js:75-78 | Merging the generator's output over the schedule it came from gives the output itself. |
| MonthlyRoster.DaysHolding | app/components/MonthlyRoster.js:104-115 | The number of days holding a code is at most the number of days counted. |
| MonthlyRoster.RowTalliesBounded | app/components/MonthlyRoster.js:104-115 | A row's A, B, S and PL counts add up to at most the number of days. |
| MonthlyRoster.GetRowStats | app/components/MonthlyRoster.js:104-115 | The loop's counts are the days among 1..days on which the staff member holds A, B, S and PL. totalWork = aCount + bCount, and aCount + bCount + sCount + plCount <= days. The screen passes the month's length as days. |
| MonthlyRoster.WorkingCount | app/components/MonthlyRoster.js:117-125 | The number of listed staff working A or B is at most the number listed. |
| MonthlyRoster.WorkingCountIsCardinality | app/components/MonthlyRoster.js:117-125 | Counting a list of distinct staff one by one gives the size of the set of those staff working A or B. |
| MonthlyRoster.WorkingAmongStep | app/components/MonthlyRoster.js:117-125 | One more staff member joins the working set exactly when that staff member works A or B. |
| MonthlyRoster.ColumnIsWorkingStaff | app/components/MonthlyRoster.js:117-125 | Over the whole roster, the count is the number of staff working A or B. |
| MonthlyRoster.GetColTotal | app/components/MonthlyRoster.js:117-125 | The loop's count is the number of staff holding A or B on the date, which is the size of that set and at most 5. |

## Left out

- Dates are modelled only for `0 <= month < 12`, for days the loop visits, and for non-negative years. The JavaScript `Date` rolls an out-of-range month or day into a neighbouring month and maps years 0 to 99 to the 1900s. Neither is modelled, and no time zones are.
- `Math.random()` and the random-comparator sort are replaced by inputs: a coin per pair per day and an order of the five staff per day. The model therefore covers every outcome the source could produce, but not the distribution of outcomes.
- Generator.GenerateMonthlyRoster: the source's copy is shallow, so the per-day objects it changes are shared with the caller's map. The model uses value semantics and returns a new map. That aliasing, and its effect on the caller's state, is not modelled.
- Generator.CountHistory: the source walks `Object.keys` in insertion order, while the model picks the dates in an arbitrary order. The sums are the same. The source's skip of a falsy day entry has no counterpart, because a stored day is always a map.
- The validator's result object `{ valid, message }` is modelled as `Valid | Invalid(message)`.
- React state and effects, `localStorage` loading and saving, and `JSON.parse`/`stringify` are persistence and framework plumbing, so they are left out. The reset handler and its `confirm()` dialog, `window.print()`, and month navigation are left out as host-environment calls. Rendering, colours and labels are left out as presentation.
- `app/layout.js` and `app/page.js` hold no logic and are not part of this model.
- Shift codes are the datatype `Shift`, not strings. A value that is not one of the seven codes cannot reach the cell edit, whose selector offers only those seven.
- MonthlyRoster.GetRowStats: takes the month's day count as the parameter `days`, which is the length of the component's `daysArray`, instead of recomputing it. The count over 1..days is the same.
